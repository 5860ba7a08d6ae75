/** The startup handshake of `src/runner/spawn.rs`: a supervisor, a forked spawner and the target it
    clones share a few words of memory and a socket pair.

    Each party is a program counter over the steps of its source function; a step touches the shared
    words at most once.  System calls that may fail do so by choice of the action.
 */
module Startup {
  import opened Sequences

  datatype Step =
    | NoStep | Stdin | Stdout | Stderr | CloseDescriptors | CloneTarget | NoNewPrivileges
    | InstallSeccomp | Exec | TransferListener | AttachTracer

  datatype Word = Empty | ListenerCreated | Spawned | Failed

  /** `SharedStartup` (`src/runner/spawn.rs:93-101`). */
  datatype Shared = Shared(done: bool, state: Word, targetPid: int, listenerFd: int, errorStep: Step)

  datatype Message = TargetReady | TracerAttached | Transfer(fd: int)

  /** `spawn_seccomp_target` after the fork (`src/runner/spawn.rs:282-352`). */
  datatype Supervisor =
    | DropSpare            // 282
    | RecvReady            // 285-289
    | LoadPid              // 291-294
    | Seize                // 295-296
    | SendAttached         // 298-299
    | RecvListener         // 300-301
    | DropSocket           // 303-305
    | WaitSpawner          // 306
    | Judge                // 308-345
    | PollTarget           // 793-811
    | KillTarget           // 813
    | ReapTarget           // 814
    | Returned

  /** `spawner_main` up to the clone (`src/runner/spawn.rs:372-409`). */
  datatype Preparing = SetStdin | SetStdout | SetStderr | CloseFds | Clone

  /** `spawner_main` between the clone and the handshake (`src/runner/spawn.rs:410-433`). */
  datatype Checking = StorePid | CheckFailed | CheckCreated | LoadListener | SendReady

  /** `spawner_main` and the exit that follows it (`src/runner/spawn.rs:272-280`, `369-456`). */
  datatype Spawner =
    | Prepare(prep: Preparing)
    | Suspended            // vfork, 399-405
    | Check(check: Checking)
    | RecvAttached         // 434-446
    | SendListener         // 448-452
    | StoreSpawned         // 454
    | Record(step: Step, kill: bool)
    | KillIt
    | PublishDone(code: int)
    | Exit(code: int)
    | Exited(code: int)
    | Killed

  /** `target_entry` (`src/runner/spawn.rs:515-555`). */
  datatype Launch =
    | Privileges | Seccomp | StoreListener(fd: int) | StoreCreated | Execve | Publish(step: Step) | ExitFailed

  /** The target before the clone, in `target_entry`, as the program it becomes, and after. */
  datatype Target = Unborn | Launching(at: Launch) | Running | Dead | Reaped

  datatype Listener = Pending | Received(fd: int) | Lost(step: Step)

  datatype Outcome = Unknown | Started(fd: int, pid: int) | Refused(step: Step)

  /** The events whose order the handshake is about. */
  datatype Milestone =
    | Wrote(word: Word) | CrossedExec | Attached | ListenerSent(fd: int) | PublishedDone | SpawnerExited(code: int)

  /** The socket pair: messages under way, and which ends are still open where. */
  datatype Net = Net(
    toSup: seq<Message>, toSp: seq<Message>,
    supEnd: bool,     // the supervisor's own end, in the supervisor
    spareEnd: bool,   // the spawner's end, in the supervisor
    leakedEnd: bool)  // the supervisor's end, in the spawner

  /** What waiting for the target reports: nothing yet, its exit, a stop under the tracer, or an
      error.  The source tells none of the last three apart (`src/runner/spawn.rs:799-811`). */
  datatype Waited = Alive | Gone | Stopped | WaitError

  /** The supervisor's program counter and local variables. */
  datatype Local = Local(
    pc: Supervisor, listener: Listener, outcome: Outcome, startupDone: bool,
    waitFailed: bool,  // waiting for the spawner failed
    missed: bool)      // waiting for the target reported no exit

  /** What has happened: the listener the target created, and the milestones. */
  datatype History = History(created: Option<int>, crossed: bool, attached: bool, sent: bool, log: seq<Milestone>)

  /** `pid` is the pid the kernel gives the target; `signalled` says that it was sent a kill. */
  datatype System = System(
    sup: Local, sp: Spawner, tg: Target, shared: Shared, net: Net, hist: History, pid: int, signalled: bool)

  ghost predicate Init(s: System) {
    && s.sup == Local(DropSpare, Pending, Unknown, false, false, false)
    && s.sp == Prepare(SetStdin) && s.tg == Unborn
    && s.shared == Shared(false, Empty, -1, -1, NoStep)
    && s.net == Net([], [], true, true, true)
    && s.hist == History(None, false, false, false, [])
    && s.pid > 0 && !s.signalled
  }

  // ----- who is alive, and which socket ends are open

  predicate SpawnerAlive(s: System) { !s.sp.Exited? && !s.sp.Killed? }

  /** The target before exec shares the spawner's descriptor table. */
  predicate TargetAlive(s: System) { s.tg.Launching? || s.tg.Running? }

  /** Someone can still write to the supervisor. */
  predicate SpawnerSideOpen(s: System) { s.net.spareEnd || SpawnerAlive(s) || s.tg.Launching? }

  /** Someone can still write to the spawner. */
  predicate SupervisorSideOpen(s: System) { s.net.supEnd || (s.net.leakedEnd && (SpawnerAlive(s) || s.tg.Launching?)) }

  // ----- actions

  datatype Action =
    // supervisor; `ok` says whether a fallible call succeeds
    | SupDropSpare | SupRecvReady(ok: bool) | SupLoadPid | SupSeize(ok: bool) | SupSendAttached(ok: bool)
    | SupRecvListener(ok: bool) | SupDropSocket | SupWait(ok: bool) | SupJudge | SupPoll(w: Waited) | SupKill | SupReap(w: Waited)
    // spawner
    | SpSetStream(ok: bool) | SpCloseFds(ok: bool) | SpClone(ok: bool) | SpResume | SpStorePid | SpCheckFailed
    | SpCheckCreated | SpLoadListener | SpSendReady(ok: bool) | SpRecvAttached(ok: bool) | SpSendListener(ok: bool)
    | SpStoreSpawned | SpRecord | SpKill | SpPublishDone | SpExit
    // target
    | TgPrivileges(ok: bool) | TgSeccomp(fd: int) | TgStoreListener | TgStoreCreated | TgExec(ok: bool)
    | TgPublish | TgExit | TgFinish | TgDie
    // from outside
    | OutsideKillSpawner | OutsideKillTarget

  predicate Outside(a: Action) { a.OutsideKillSpawner? || a.OutsideKillTarget? }

  /** A receive delivers a message that is there.  It fails on end of file, but also for reasons of
      its own, at any time. */
  predicate CanRecv(queue: seq<Message>, ok: bool) { ok ==> queue != [] }

  /** Waiting reports an exit only of a dead target, and a stop only of a traced one. */
  predicate CanWait(s: System, w: Waited) {
    match w
    case Alive => TargetAlive(s)
    case Gone => s.tg.Dead?
    case Stopped => s.tg.Running? && s.hist.attached
    case WaitError => true
  }

  /** Waiting for the target ended without its exit. */
  predicate Misses(a: Action) {
    (a.SupPoll? || a.SupReap?) && (a.w == Stopped || a.w == WaitError)
  }

  predicate Can(s: System, a: Action) {
    match a
    case SupDropSpare => s.sup.pc.DropSpare?
    case SupRecvReady(ok) => s.sup.pc.RecvReady? && CanRecv(s.net.toSup, ok)
    case SupLoadPid => s.sup.pc.LoadPid?
    case SupSeize(ok) => s.sup.pc.Seize? && (ok ==> TargetAlive(s))
    case SupSendAttached(ok) => s.sup.pc.SendAttached? && (ok ==> SpawnerSideOpen(s))
    case SupRecvListener(ok) => s.sup.pc.RecvListener? && CanRecv(s.net.toSup, ok)
    case SupDropSocket => s.sup.pc.DropSocket?
    case SupWait(ok) => s.sup.pc.WaitSpawner? && (ok ==> !SpawnerAlive(s))
    case SupJudge => s.sup.pc.Judge?
    case SupPoll(w) => s.sup.pc.PollTarget? && (if s.shared.targetPid <= 0 then w == Alive else CanWait(s, w))
    case SupKill => s.sup.pc.KillTarget?
    case SupReap(w) => s.sup.pc.ReapTarget? && w != Alive && CanWait(s, w)
    case SpSetStream(_) => s.sp.Prepare? && (s.sp.prep.SetStdin? || s.sp.prep.SetStdout? || s.sp.prep.SetStderr?)
    case SpCloseFds(_) => s.sp == Prepare(CloseFds)
    case SpClone(_) => s.sp == Prepare(Clone)
    case SpResume => s.sp.Suspended? && !s.tg.Launching?
    case SpStorePid => s.sp == Check(StorePid)
    case SpCheckFailed => s.sp == Check(CheckFailed)
    case SpCheckCreated => s.sp == Check(CheckCreated)
    case SpLoadListener => s.sp == Check(LoadListener)
    case SpSendReady(ok) => s.sp == Check(SendReady) && (ok ==> SupervisorSideOpen(s))
    case SpRecvAttached(ok) => s.sp.RecvAttached? && CanRecv(s.net.toSp, ok)
    case SpSendListener(ok) => s.sp.SendListener? && (ok ==> SupervisorSideOpen(s))
    case SpStoreSpawned => s.sp.StoreSpawned?
    case SpRecord => s.sp.Record?
    case SpKill => s.sp.KillIt?
    case SpPublishDone => s.sp.PublishDone?
    case SpExit => s.sp.Exit?
    case TgPrivileges(_) => s.tg.Launching? && s.tg.at.Privileges?
    case TgSeccomp(_) => s.tg.Launching? && s.tg.at.Seccomp?
    case TgStoreListener => s.tg.Launching? && s.tg.at.StoreListener?
    case TgStoreCreated => s.tg.Launching? && s.tg.at.StoreCreated?
    case TgExec(_) => s.tg.Launching? && s.tg.at.Execve?
    case TgPublish => s.tg.Launching? && s.tg.at.Publish?
    case TgExit => s.tg.Launching? && s.tg.at.ExitFailed?
    case TgFinish => s.tg.Running?
    case TgDie => s.signalled && TargetAlive(s)
    case OutsideKillSpawner => SpawnerAlive(s)
    case OutsideKillTarget => TargetAlive(s) && !s.signalled
  }

  // ----- the supervisor's steps

  /** The verdict of `src/runner/spawn.rs:310-345`, once the spawner has been waited for and
      `done` is set. */
  function Verdict(s: System): Outcome {
    if s.sup.listener == Lost(AttachTracer) then Refused(AttachTracer)
    else if s.shared.state == Failed then Refused(s.shared.errorStep)
    else if s.sp != Exited(0) then Refused(CloneTarget)
    else match s.sup.listener
      case Pending => Refused(TransferListener)
      case Lost(step) => Refused(step)
      case Received(fd) =>
        if s.shared.state != Spawned then Refused(CloneTarget)
        else if s.shared.targetPid <= 0 then Refused(CloneTarget)
        else Started(fd, s.shared.targetPid)
  }

  function DoSupervisor(s: System, a: Action): System
    requires Can(s, a)
  {
    match a
    case SupDropSpare => s.(net := s.net.(spareEnd := false), sup := s.sup.(pc := RecvReady))
    case SupRecvReady(ok) =>
      s.(net := s.net.(toSup := if ok then s.net.toSup[1..] else s.net.toSup),
         sup := if ok && s.net.toSup[0] == TargetReady then s.sup.(pc := LoadPid)
                else s.sup.(listener := Lost(TransferListener), pc := DropSocket))
    case SupLoadPid =>
      s.(sup := if s.shared.targetPid <= 0 then s.sup.(listener := Lost(CloneTarget), pc := DropSocket)
                else s.sup.(pc := Seize))
    case SupSeize(ok) =>
      if ok then s.(hist := s.hist.(attached := true, log := s.hist.log + [Attached]), sup := s.sup.(pc := SendAttached))
      else s.(sup := s.sup.(listener := Lost(AttachTracer), pc := DropSocket))
    case SupSendAttached(ok) =>
      if ok then s.(net := s.net.(toSp := s.net.toSp + [TracerAttached]), sup := s.sup.(pc := RecvListener))
      else s.(sup := s.sup.(listener := Lost(TransferListener), pc := DropSocket))
    case SupRecvListener(ok) =>
      s.(net := s.net.(toSup := if ok then s.net.toSup[1..] else s.net.toSup),
         sup := if ok && s.net.toSup[0].Transfer? then s.sup.(listener := Received(s.net.toSup[0].fd), pc := WaitSpawner)
                else s.sup.(listener := Lost(TransferListener), pc := DropSocket))
    case SupDropSocket => s.(net := s.net.(supEnd := false), sup := s.sup.(pc := WaitSpawner))
    case SupWait(ok) =>
      s.(sup := if ok then s.sup.(pc := Judge)
                else s.sup.(waitFailed := true, outcome := Refused(CloneTarget), pc := Returned))
    case SupJudge =>
      s.(sup := if !s.shared.done then s.sup.(outcome := Refused(CloneTarget), pc := Returned)
                else s.sup.(startupDone := true, outcome := Verdict(s),
                            pc := if Verdict(s).Refused? then PollTarget else Returned))
    case SupPoll(w) =>
      if s.shared.targetPid <= 0 then s.(sup := s.sup.(pc := Returned))
      else if w == Alive then s.(sup := s.sup.(pc := KillTarget))
      else s.(tg := if w == Gone then Reaped else s.tg, sup := s.sup.(pc := Returned, missed := w != Gone))
    case SupKill => s.(signalled := true, sup := s.sup.(pc := ReapTarget))
    case SupReap(w) =>
      s.(tg := if w == Gone then Reaped else s.tg, sup := s.sup.(pc := Returned, missed := w != Gone))
    case _ => s
  }

  // ----- the spawner's steps

  function DoSpawner(s: System, a: Action): System
    requires Can(s, a)
  {
    match a
    case SpSetStream(ok) =>
      s.(sp := match s.sp.prep
               case SetStdin => if ok then Prepare(SetStdout) else Record(Stdin, false)
               case SetStdout => if ok then Prepare(SetStderr) else Record(Stdout, false)
               case _ => if ok then Prepare(CloseFds) else Record(Stderr, false))
    case SpCloseFds(ok) =>
      if ok then s.(net := s.net.(leakedEnd := false), sp := Prepare(Clone)) else s.(sp := Record(CloseDescriptors, false))
    case SpClone(ok) =>
      if ok then s.(tg := Launching(Privileges), sp := Suspended) else s.(sp := Record(CloneTarget, false))
    case SpResume => s.(sp := Check(StorePid))
    case SpStorePid => s.(shared := s.shared.(targetPid := s.pid), sp := Check(CheckFailed))
    case SpCheckFailed => s.(sp := if s.shared.state == Failed then PublishDone(127) else Check(CheckCreated))
    case SpCheckCreated => s.(sp := if s.shared.state != ListenerCreated then Record(Exec, true) else Check(LoadListener))
    case SpLoadListener => s.(sp := if s.shared.listenerFd < 0 then Record(InstallSeccomp, true) else Check(SendReady))
    case SpSendReady(ok) =>
      if ok then s.(net := s.net.(toSup := s.net.toSup + [TargetReady]), sp := RecvAttached)
      else s.(sp := Record(TransferListener, true))
    case SpRecvAttached(ok) =>
      s.(net := s.net.(toSp := if ok then s.net.toSp[1..] else s.net.toSp),
         sp := if ok && s.net.toSp[0] == TracerAttached then SendListener else Record(TransferListener, true))
    case SpSendListener(ok) =>
      if ok then s.(net := s.net.(toSup := s.net.toSup + [Transfer(s.shared.listenerFd)]),
                    hist := s.hist.(sent := true, log := s.hist.log + [ListenerSent(s.shared.listenerFd)]),
                    sp := StoreSpawned)
      else s.(sp := Record(TransferListener, true))
    case SpStoreSpawned =>
      s.(shared := s.shared.(state := Spawned), hist := s.hist.(log := s.hist.log + [Wrote(Spawned)]), sp := PublishDone(0))
    case SpRecord =>
      s.(shared := s.shared.(state := Failed, errorStep := s.sp.step),
         hist := s.hist.(log := s.hist.log + [Wrote(Failed)]), sp := if s.sp.kill then KillIt else PublishDone(127))
    case SpKill => s.(signalled := true, sp := PublishDone(127))
    case SpPublishDone =>
      s.(shared := s.shared.(done := true), hist := s.hist.(log := s.hist.log + [PublishedDone]), sp := Exit(s.sp.code))
    case SpExit => s.(hist := s.hist.(log := s.hist.log + [SpawnerExited(s.sp.code)]), sp := Exited(s.sp.code))
    case _ => s
  }

  // ----- the target's steps, and kills from outside

  function DoTarget(s: System, a: Action): System
    requires Can(s, a)
  {
    match a
    case TgPrivileges(ok) => s.(tg := Launching(if ok then Seccomp else Publish(NoNewPrivileges)))
    case TgSeccomp(fd) =>
      if fd >= 0 then s.(hist := s.hist.(created := Some(fd)), tg := Launching(StoreListener(fd)))
      else s.(tg := Launching(Publish(InstallSeccomp)))
    case TgStoreListener => s.(shared := s.shared.(listenerFd := s.tg.at.fd), tg := Launching(StoreCreated))
    case TgStoreCreated =>
      s.(shared := s.shared.(state := ListenerCreated), hist := s.hist.(log := s.hist.log + [Wrote(ListenerCreated)]),
         tg := Launching(Execve))
    case TgExec(ok) =>
      if ok then s.(hist := s.hist.(crossed := true, log := s.hist.log + [CrossedExec]), tg := Running)
      else s.(tg := Launching(Publish(Exec)))
    case TgPublish =>
      s.(shared := s.shared.(state := Failed, errorStep := s.tg.at.step),
         hist := s.hist.(log := s.hist.log + [Wrote(Failed)]), tg := Launching(ExitFailed))
    case TgExit => s.(tg := Dead)
    case TgFinish => s.(tg := Dead)
    case TgDie => s.(tg := Dead)
    case OutsideKillSpawner => s.(sp := Killed)
    case OutsideKillTarget => s.(signalled := true)
    case _ => s
  }

  predicate BySupervisor(a: Action) {
    a.SupDropSpare? || a.SupRecvReady? || a.SupLoadPid? || a.SupSeize? || a.SupSendAttached? || a.SupRecvListener?
    || a.SupDropSocket? || a.SupWait? || a.SupJudge? || a.SupPoll? || a.SupKill? || a.SupReap?
  }

  predicate BySpawner(a: Action) {
    a.SpSetStream? || a.SpCloseFds? || a.SpClone? || a.SpResume? || a.SpStorePid? || a.SpCheckFailed?
    || a.SpCheckCreated? || a.SpLoadListener? || a.SpSendReady? || a.SpRecvAttached? || a.SpSendListener?
    || a.SpStoreSpawned? || a.SpRecord? || a.SpKill? || a.SpPublishDone? || a.SpExit?
  }

  function Do(s: System, a: Action): System
    requires Can(s, a)
  {
    if BySupervisor(a) then DoSupervisor(s, a) else if BySpawner(a) then DoSpawner(s, a) else DoTarget(s, a)
  }

  // ----- the invariant

  /** The spawner has not yet told the supervisor that the target is ready. */
  predicate BeforeReady(sp: Spawner) { sp.Prepare? || sp.Suspended? || sp.Check? || (sp.Record? && !sp.kill) }

  predicate BeforeClone(sp: Spawner) { sp.Prepare? || (sp.Record? && !sp.kill) }

  predicate Ending(sp: Spawner) { sp.PublishDone? || sp.Exit? || sp.Exited? }

  predicate PidStored(sp: Spawner) {
    (sp.Check? && !sp.check.StorePid?) || sp.RecvAttached? || sp.SendListener? || sp.StoreSpawned? || sp.KillIt?
    || (sp.Record? && sp.kill)
  }

  predicate Waiting(sup: Supervisor) {
    sup.WaitSpawner? || sup.Judge? || sup.PollTarget? || sup.KillTarget? || sup.ReapTarget? || sup.Returned?
  }

  /** How target and spawner stand to each other. */
  ghost predicate TargetOk(s: System) {
    && s.pid > 0 && (s.shared.targetPid == -1 || s.shared.targetPid == s.pid)
    && (s.shared.targetPid == s.pid ==> s.tg != Unborn && !s.tg.Launching?)
    && (BeforeClone(s.sp) ==> s.tg == Unborn)
    && (s.sp.Suspended? || s.sp.Check? ==> s.tg != Unborn)
    && (PidStored(s.sp) ==> s.shared.targetPid == s.pid)
    && (Ending(s.sp) && s.tg != Unborn ==> s.shared.targetPid == s.pid)
    && (s.shared.done && s.tg != Unborn ==> s.shared.targetPid == s.pid)
    && (s.tg.Launching? ==> (s.sp.Suspended? || s.sp.Killed?) && !s.shared.done)
    && (s.tg.Reaped? ==> s.sup.pc.Returned?)
    && (s.tg.Running? ==> s.hist.crossed) && (s.hist.crossed ==> !s.tg.Launching? && s.tg != Unborn)
  }

  ghost predicate LaunchOk(s: System)
    requires s.tg.Launching?
  {
    match s.tg.at
    case Privileges => s.shared.state == Empty
    case Seccomp => s.shared.state == Empty
    case StoreListener(fd) => s.shared.state == Empty && fd >= 0 && s.hist.created == Some(fd)
    case StoreCreated => s.shared.state == Empty && s.hist.created.Some? && s.shared.listenerFd == s.hist.created.value >= 0
    case Execve => s.shared.state == ListenerCreated
    case Publish(step) => s.shared.state == if step == Exec then ListenerCreated else Empty
    case ExitFailed => s.shared.state == Failed
  }

  /** What the shared words say. */
  ghost predicate WordsOk(s: System) {
    && (s.tg.Launching? ==> LaunchOk(s))
    && (s.tg.Unborn? ==> s.shared.state == Empty || s.shared.state == Failed)
    && (s.shared.state == ListenerCreated || s.shared.state == Spawned ==>
          s.hist.created.Some? && s.shared.listenerFd == s.hist.created.value >= 0)
    && (s.hist.crossed && s.shared.state != Failed ==> s.shared.state != Empty)
    && (s.sp == Check(LoadListener) || s.sp == Check(SendReady) || s.sp.RecvAttached? || s.sp.SendListener? || s.sp.StoreSpawned? ==>
          s.shared.state == ListenerCreated)
    && (BeforeClone(s.sp) ==> s.shared.state == Empty)
    && (s.sp == Check(CheckCreated) ==> s.shared.state == Empty || s.shared.state == ListenerCreated)
    && (s.sp.KillIt? ==> s.shared.state == Failed)
    && (s.sp.Record? && s.sp.kill ==> s.shared.state == Empty || s.shared.state == ListenerCreated)
    && (Ending(s.sp) ==> (s.sp.code == 0 && s.shared.state == Spawned) || (s.sp.code == 127 && s.shared.state == Failed))
    && (s.sp.Exit? || s.sp.Exited? ==> s.shared.done)
    && (s.shared.done ==> s.sp.Exit? || s.sp.Exited? || s.sp.Killed?)
    && (s.shared.done ==> s.shared.state == Spawned || s.shared.state == Failed)
    && (s.shared.state == Spawned ==> s.hist.sent)
    && (s.shared.state == Failed && (s.sp.Suspended? || s.sp.Check?) ==> !s.hist.crossed)
    && ((Ending(s.sp) || s.shared.done) && s.shared.state == Failed && s.hist.crossed ==> s.signalled)
  }

  /** Which messages are under way. */
  ghost predicate MessagesOk(s: System) {
    && (s.sup.pc.DropSpare? <==> s.net.spareEnd)
    && (s.net.leakedEnd ==> BeforeClone(s.sp) || s.sp.Killed? || Ending(s.sp))
    && (s.net.leakedEnd ==> s.tg == Unborn && s.sp != Prepare(Clone))
    && (BeforeReady(s.sp) || s.tg.Launching? ==>
          (s.sup.pc.DropSpare? || s.sup.pc.RecvReady? || s.sup.listener.Lost?) && s.net.toSup == [])
    && (BeforeReady(s.sp) || s.tg.Launching? ==> !s.hist.attached)
    && (s.net.toSup == [] || s.net.toSup == [TargetReady] || (s.hist.sent && s.hist.created.Some? && s.net.toSup == [Transfer(s.hist.created.value)]))
    && (s.net.toSup == [TargetReady] ==> (s.sup.pc.DropSpare? || s.sup.pc.RecvReady? || s.sup.listener.Lost?) && !s.tg.Launching? && s.shared.targetPid == s.pid)
    && (s.sup.pc.DropSpare? || s.sup.pc.RecvReady? || s.sup.pc.LoadPid? || s.sup.pc.Seize? ==> !s.hist.attached)
    && (s.sup.pc.LoadPid? || s.sup.pc.Seize? || s.sup.pc.SendAttached? ==> s.net.toSup == [] && !s.tg.Launching? && s.shared.targetPid == s.pid)
    && (s.sup.pc.SendAttached? || s.sup.pc.RecvListener? ==> s.hist.attached)
    && (s.hist.attached ==> s.hist.crossed && s.shared.targetPid == s.pid)
    && (s.sp.RecvAttached? && (s.sup.pc.DropSpare? || s.sup.pc.RecvReady?) ==> s.net.toSup == [TargetReady])
    && (s.sp.RecvAttached? && s.sup.pc.RecvListener? ==> s.net.toSp == [TracerAttached])
    && (s.sup.pc.RecvListener? && s.hist.sent ==> s.net.toSup != [])
  }

  ghost predicate TransferOk(s: System) {
    && (s.net.toSp == [] || (s.net.toSp == [TracerAttached] && s.hist.attached && !s.hist.sent))
    && (s.sup.pc.SendAttached? ==> s.net.toSp == [] && !s.hist.sent)
    && (!s.hist.attached ==> s.net.toSp == [] && !s.hist.sent)
    && (s.hist.attached && !s.hist.sent ==> s.net.toSup == [])
    && (s.sp.SendListener? || s.sp.StoreSpawned? ==> s.sup.pc.RecvListener? || s.sup.pc.DropSocket? || Waiting(s.sup.pc))
    && (s.sp.SendListener? ==> s.hist.attached && !s.hist.sent && s.net.toSp == []) && (s.sp.StoreSpawned? ==> s.hist.sent)
    && (s.sp.RecvAttached? ==> !s.hist.sent)
    && (s.hist.sent && s.shared.state != Failed ==> s.shared.state == ListenerCreated || s.shared.state == Spawned)
    && (s.hist.sent ==> s.hist.created.Some?)
    && (s.sup.listener.Received? ==> s.hist.sent && s.hist.created == Some(s.sup.listener.fd))
    && (Waiting(s.sup.pc) ==> !s.sup.listener.Pending?)
    && (Waiting(s.sup.pc) && s.sup.listener.Lost? ==> !s.net.supEnd)
    && (!Waiting(s.sup.pc) ==> !s.sup.listener.Received? && (s.sup.listener.Lost? <==> s.sup.pc.DropSocket?))
    && (s.net.supEnd || (Waiting(s.sup.pc) && s.sup.listener.Lost?))
  }

  /** The end of the supervisor's own path. */
  ghost predicate OutcomeOk(s: System) {
    && (s.sup.pc.Judge? || s.sup.pc.PollTarget? || s.sup.pc.KillTarget? || s.sup.pc.ReapTarget? ==> !SpawnerAlive(s))
    && (s.sup.outcome == Unknown <==> !(s.sup.pc.PollTarget? || s.sup.pc.KillTarget? || s.sup.pc.ReapTarget? || s.sup.pc.Returned?))
    && (s.sup.pc.PollTarget? || s.sup.pc.KillTarget? || s.sup.pc.ReapTarget? ==> s.sup.outcome.Refused? && s.sup.startupDone)
    && (s.sup.pc.KillTarget? || s.sup.pc.ReapTarget? ==> TargetAlive(s) || s.tg.Dead?)
    && (s.sup.pc.ReapTarget? ==> s.signalled)
    && (s.sup.startupDone ==> s.shared.done && !SpawnerAlive(s) && s.sup.outcome != Unknown)
    && (s.sup.outcome.Started? ==> s.sup.pc.Returned? && s.sup.startupDone)
    && (s.sup.startupDone ==> s.sup.outcome == Verdict(s))
    && (s.sup.pc.Returned? && s.sup.outcome.Refused? && s.sup.startupDone ==>
          (s.tg.Unborn? || s.tg.Reaped? <==> !s.sup.missed))
    && (s.tg.Reaped? || s.sup.missed ==> s.sup.pc.Returned? && s.sup.outcome.Refused?)
    && (s.sup.pc.Returned? && !s.sup.startupDone ==> s.sup.outcome == Refused(CloneTarget))
    && (s.sup.pc.Returned? && !s.sup.startupDone ==> s.sup.waitFailed || (s.sp.Killed? && !s.shared.done))
  }

  /** The milestones passed so far, in their order, unless something failed. */
  ghost function Passed(s: System): seq<Milestone> {
    (if s.shared.state != Empty then [Wrote(ListenerCreated)] else [])
    + (if s.hist.crossed then [CrossedExec] else [])
    + (if s.hist.attached then [Attached] else [])
    + (if s.hist.sent then [ListenerSent(s.shared.listenerFd)] else [])
    + (if s.shared.state == Spawned then [Wrote(Spawned)] else [])
    + (if s.shared.done then [PublishedDone] else [])
    + (if s.sp == Exited(0) then [SpawnerExited(0)] else [])
  }

  ghost predicate LogOk(s: System) {
    s.shared.state != Failed ==> s.hist.log == Passed(s)
  }

  ghost predicate Inv(s: System) {
    TargetOk(s) && WordsOk(s) && MessagesOk(s) && TransferOk(s) && OutcomeOk(s) && LogOk(s)
  }

  lemma InitInv(s: System)
    requires Init(s)
    ensures Inv(s)
  {
  }

  // ----- every action keeps it, and brings the end nearer

  function SupervisorWork(s: Supervisor): nat {
    match s
    case DropSpare => 12 case RecvReady => 11 case LoadPid => 10 case Seize => 9 case SendAttached => 8
    case RecvListener => 7 case DropSocket => 6 case WaitSpawner => 5 case Judge => 4 case PollTarget => 3
    case KillTarget => 2 case ReapTarget => 1 case Returned => 0
  }

  function SpawnerWork(s: Spawner): nat {
    match s
    case Prepare(SetStdin) => 19 case Prepare(SetStdout) => 18 case Prepare(SetStderr) => 17
    case Prepare(CloseFds) => 16 case Prepare(Clone) => 15 case Suspended => 14
    case Check(StorePid) => 13 case Check(CheckFailed) => 12 case Check(CheckCreated) => 11
    case Check(LoadListener) => 10 case Check(SendReady) => 9
    case RecvAttached => 8 case SendListener => 7 case StoreSpawned => 6 case Record(_, _) => 5 case KillIt => 4
    case PublishDone(_) => 3 case Exit(_) => 2 case Exited(_) => 0 case Killed => 0
  }

  function TargetWork(t: Target): nat {
    match t
    case Unborn => 10 case Launching(Privileges) => 9 case Launching(Seccomp) => 8
    case Launching(StoreListener(_)) => 7 case Launching(StoreCreated) => 6 case Launching(Execve) => 5
    case Launching(Publish(_)) => 4 case Launching(ExitFailed) => 3 case Running => 2 case Dead => 1 case Reaped => 0
  }

  function Work(s: System): nat {
    SupervisorWork(s.sup.pc) + SpawnerWork(s.sp) + TargetWork(s.tg) + (if s.signalled then 0 else 1)
  }

  /** Nobody has killed the spawner, and waiting for it has not failed. */
  predicate Calm(s: System) { !s.sp.Killed? && !s.sup.waitFailed }

  /** What every action does: it keeps the invariant, leaves less work, and stays calm unless it is
      one of the two disturbances. */
  ghost predicate Advances(s: System, a: Action)
    requires Can(s, a)
  {
    var t := Do(s, a);
    && Inv(t) && Work(t) < Work(s)
    && (Calm(s) && a != OutsideKillSpawner && a != SupWait(false) ==> Calm(t))
  }

  /** Half of the invariant; the actions that touch most of it are proved in two halves. */
  ghost predicate SharedOk(s: System) { TargetOk(s) && WordsOk(s) && MessagesOk(s) }

  lemma AdvanceSupDropSpare(s: System)
    requires Inv(s) && Can(s, SupDropSpare)
    ensures Advances(s, SupDropSpare)
  {
  }

  lemma SupRecvReadyShared(s: System, ok: bool)
    requires Inv(s) && Can(s, SupRecvReady(ok))
    ensures SharedOk(Do(s, SupRecvReady(ok)))
  {
  }

  lemma AdvanceSupRecvReady(s: System, ok: bool)
    requires Inv(s) && Can(s, SupRecvReady(ok))
    ensures Advances(s, SupRecvReady(ok))
  {
    SupRecvReadyShared(s, ok);
  }

  lemma AdvanceSupLoadPid(s: System)
    requires Inv(s) && Can(s, SupLoadPid)
    ensures Advances(s, SupLoadPid)
  {
  }

  lemma AdvanceSupSeize(s: System, ok: bool)
    requires Inv(s) && Can(s, SupSeize(ok))
    ensures Advances(s, SupSeize(ok))
  {
  }

  lemma AdvanceSupSendAttached(s: System, ok: bool)
    requires Inv(s) && Can(s, SupSendAttached(ok))
    ensures Advances(s, SupSendAttached(ok))
  {
  }

  lemma AdvanceSupRecvListener(s: System, ok: bool)
    requires Inv(s) && Can(s, SupRecvListener(ok))
    ensures Advances(s, SupRecvListener(ok))
  {
  }

  lemma AdvanceSupDropSocket(s: System)
    requires Inv(s) && Can(s, SupDropSocket)
    ensures Advances(s, SupDropSocket)
  {
  }

  lemma SupWaitShared(s: System, ok: bool)
    requires Inv(s) && Can(s, SupWait(ok))
    ensures SharedOk(Do(s, SupWait(ok)))
  {
  }

  lemma AdvanceSupWait(s: System, ok: bool)
    requires Inv(s) && Can(s, SupWait(ok))
    ensures Advances(s, SupWait(ok))
  {
    SupWaitShared(s, ok);
  }

  lemma SupJudgeShared(s: System)
    requires Inv(s) && Can(s, SupJudge)
    ensures SharedOk(Do(s, SupJudge))
  {
  }

  lemma AdvanceSupJudge(s: System)
    requires Inv(s) && Can(s, SupJudge)
    ensures Advances(s, SupJudge)
  {
    SupJudgeShared(s);
  }

  lemma SupPollShared(s: System, w: Waited)
    requires Inv(s) && Can(s, SupPoll(w))
    ensures SharedOk(Do(s, SupPoll(w)))
  {
  }

  lemma AdvanceSupPoll(s: System, w: Waited)
    requires Inv(s) && Can(s, SupPoll(w))
    ensures Advances(s, SupPoll(w))
  {
    SupPollShared(s, w);
  }

  lemma AdvanceSupKill(s: System)
    requires Inv(s) && Can(s, SupKill)
    ensures Advances(s, SupKill)
  {
  }

  lemma AdvanceSupReap(s: System, w: Waited)
    requires Inv(s) && Can(s, SupReap(w))
    ensures Advances(s, SupReap(w))
  {
  }

  lemma AdvanceSpSetStream(s: System, ok: bool)
    requires Inv(s) && Can(s, SpSetStream(ok))
    ensures Advances(s, SpSetStream(ok))
  {
  }

  lemma AdvanceSpCloseFds(s: System, ok: bool)
    requires Inv(s) && Can(s, SpCloseFds(ok))
    ensures Advances(s, SpCloseFds(ok))
  {
  }

  lemma AdvanceSpClone(s: System, ok: bool)
    requires Inv(s) && Can(s, SpClone(ok))
    ensures Advances(s, SpClone(ok))
  {
  }

  lemma AdvanceSpResume(s: System)
    requires Inv(s) && Can(s, SpResume)
    ensures Advances(s, SpResume)
  {
  }

  lemma AdvanceSpStorePid(s: System)
    requires Inv(s) && Can(s, SpStorePid)
    ensures Advances(s, SpStorePid)
  {
  }

  lemma AdvanceSpCheckFailed(s: System)
    requires Inv(s) && Can(s, SpCheckFailed)
    ensures Advances(s, SpCheckFailed)
  {
  }

  lemma AdvanceSpCheckCreated(s: System)
    requires Inv(s) && Can(s, SpCheckCreated)
    ensures Advances(s, SpCheckCreated)
  {
  }

  lemma AdvanceSpLoadListener(s: System)
    requires Inv(s) && Can(s, SpLoadListener)
    ensures Advances(s, SpLoadListener)
  {
  }

  lemma SpSendReadyShared(s: System, ok: bool)
    requires Inv(s) && Can(s, SpSendReady(ok))
    ensures SharedOk(Do(s, SpSendReady(ok)))
  {
  }

  lemma AdvanceSpSendReady(s: System, ok: bool)
    requires Inv(s) && Can(s, SpSendReady(ok))
    ensures Advances(s, SpSendReady(ok))
  {
    SpSendReadyShared(s, ok);
  }

  lemma AdvanceSpRecvAttached(s: System, ok: bool)
    requires Inv(s) && Can(s, SpRecvAttached(ok))
    ensures Advances(s, SpRecvAttached(ok))
  {
  }

  lemma AdvanceSpSendListener(s: System, ok: bool)
    requires Inv(s) && Can(s, SpSendListener(ok))
    ensures Advances(s, SpSendListener(ok))
  {
  }

  lemma AdvanceSpStoreSpawned(s: System)
    requires Inv(s) && Can(s, SpStoreSpawned)
    ensures Advances(s, SpStoreSpawned)
  {
  }

  lemma SpRecordShared(s: System)
    requires Inv(s) && Can(s, SpRecord)
    ensures SharedOk(Do(s, SpRecord))
  {
  }

  lemma AdvanceSpRecord(s: System)
    requires Inv(s) && Can(s, SpRecord)
    ensures Advances(s, SpRecord)
  {
    SpRecordShared(s);
  }

  lemma AdvanceSpKill(s: System)
    requires Inv(s) && Can(s, SpKill)
    ensures Advances(s, SpKill)
  {
  }

  lemma SpPublishDoneShared(s: System)
    requires Inv(s) && Can(s, SpPublishDone)
    ensures SharedOk(Do(s, SpPublishDone))
  {
  }

  lemma AdvanceSpPublishDone(s: System)
    requires Inv(s) && Can(s, SpPublishDone)
    ensures Advances(s, SpPublishDone)
  {
    SpPublishDoneShared(s);
  }

  lemma SpExitShared(s: System)
    requires Inv(s) && Can(s, SpExit)
    ensures SharedOk(Do(s, SpExit))
  {
  }

  lemma AdvanceSpExit(s: System)
    requires Inv(s) && Can(s, SpExit)
    ensures Advances(s, SpExit)
  {
    SpExitShared(s);
  }

  lemma AdvanceTgPrivileges(s: System, ok: bool)
    requires Inv(s) && Can(s, TgPrivileges(ok))
    ensures Advances(s, TgPrivileges(ok))
  {
  }

  lemma TgSeccompShared(s: System, fd: int)
    requires Inv(s) && Can(s, TgSeccomp(fd))
    ensures SharedOk(Do(s, TgSeccomp(fd)))
  {
  }

  lemma AdvanceTgSeccomp(s: System, fd: int)
    requires Inv(s) && Can(s, TgSeccomp(fd))
    ensures Advances(s, TgSeccomp(fd))
  {
    TgSeccompShared(s, fd);
  }

  lemma AdvanceTgStoreListener(s: System)
    requires Inv(s) && Can(s, TgStoreListener)
    ensures Advances(s, TgStoreListener)
  {
  }

  lemma AdvanceTgStoreCreated(s: System)
    requires Inv(s) && Can(s, TgStoreCreated)
    ensures Advances(s, TgStoreCreated)
  {
  }

  lemma AdvanceTgExec(s: System, ok: bool)
    requires Inv(s) && Can(s, TgExec(ok))
    ensures Advances(s, TgExec(ok))
  {
  }

  lemma AdvanceTgPublish(s: System)
    requires Inv(s) && Can(s, TgPublish)
    ensures Advances(s, TgPublish)
  {
  }

  lemma AdvanceTgExit(s: System)
    requires Inv(s) && Can(s, TgExit)
    ensures Advances(s, TgExit)
  {
  }

  lemma AdvanceTgFinish(s: System)
    requires Inv(s) && Can(s, TgFinish)
    ensures Advances(s, TgFinish)
  {
  }

  lemma AdvanceTgDie(s: System)
    requires Inv(s) && Can(s, TgDie)
    ensures Advances(s, TgDie)
  {
  }

  lemma OutsideKillSpawnerShared(s: System)
    requires Inv(s) && Can(s, OutsideKillSpawner)
    ensures SharedOk(Do(s, OutsideKillSpawner))
  {
  }

  lemma AdvanceOutsideKillSpawner(s: System)
    requires Inv(s) && Can(s, OutsideKillSpawner)
    ensures Advances(s, OutsideKillSpawner)
  {
    OutsideKillSpawnerShared(s);
  }

  lemma AdvanceOutsideKillTarget(s: System)
    requires Inv(s) && Can(s, OutsideKillTarget)
    ensures Advances(s, OutsideKillTarget)
  {
  }

  predicate AfterHandshake(a: Action) {
    a.SupWait? || a.SupJudge? || a.SupPoll? || a.SupKill? || a.SupReap?
  }

  lemma AdvanceAfterHandshake(s: System, a: Action)
    requires Inv(s) && Can(s, a) && AfterHandshake(a)
    ensures Advances(s, a)
  {
    match a
    case SupWait(ok) => AdvanceSupWait(s, ok);
    case SupJudge => AdvanceSupJudge(s);
    case SupPoll(w) => AdvanceSupPoll(s, w);
    case SupKill => AdvanceSupKill(s);
    case SupReap(w) => AdvanceSupReap(s, w);
  }

  lemma AdvanceBySupervisor(s: System, a: Action)
    requires Inv(s) && Can(s, a) && BySupervisor(a) && !AfterHandshake(a)
    ensures Advances(s, a)
  {
    match a
    case SupDropSpare => AdvanceSupDropSpare(s);
    case SupRecvReady(ok) => AdvanceSupRecvReady(s, ok);
    case SupLoadPid => AdvanceSupLoadPid(s);
    case SupSeize(ok) => AdvanceSupSeize(s, ok);
    case SupSendAttached(ok) => AdvanceSupSendAttached(s, ok);
    case SupRecvListener(ok) => AdvanceSupRecvListener(s, ok);
    case SupDropSocket => AdvanceSupDropSocket(s);
  }

  predicate BeforeHandshake(a: Action) {
    a.SpSetStream? || a.SpCloseFds? || a.SpClone? || a.SpResume? || a.SpStorePid? || a.SpCheckFailed?
    || a.SpCheckCreated? || a.SpLoadListener?
  }

  lemma AdvanceBeforeHandshake(s: System, a: Action)
    requires Inv(s) && Can(s, a) && BeforeHandshake(a)
    ensures Advances(s, a)
  {
    match a
    case SpSetStream(ok) => AdvanceSpSetStream(s, ok);
    case SpCloseFds(ok) => AdvanceSpCloseFds(s, ok);
    case SpClone(ok) => AdvanceSpClone(s, ok);
    case SpResume => AdvanceSpResume(s);
    case SpStorePid => AdvanceSpStorePid(s);
    case SpCheckFailed => AdvanceSpCheckFailed(s);
    case SpCheckCreated => AdvanceSpCheckCreated(s);
    case SpLoadListener => AdvanceSpLoadListener(s);
  }

  lemma AdvanceBySpawner(s: System, a: Action)
    requires Inv(s) && Can(s, a) && BySpawner(a) && !BeforeHandshake(a)
    ensures Advances(s, a)
  {
    match a
    case SpSendReady(ok) => AdvanceSpSendReady(s, ok);
    case SpRecvAttached(ok) => AdvanceSpRecvAttached(s, ok);
    case SpSendListener(ok) => AdvanceSpSendListener(s, ok);
    case SpStoreSpawned => AdvanceSpStoreSpawned(s);
    case SpRecord => AdvanceSpRecord(s);
    case SpKill => AdvanceSpKill(s);
    case SpPublishDone => AdvanceSpPublishDone(s);
    case SpExit => AdvanceSpExit(s);
  }

  lemma AdvanceByTarget(s: System, a: Action)
    requires Inv(s) && Can(s, a) && !BySupervisor(a) && !BySpawner(a)
    ensures Advances(s, a)
  {
    match a
    case TgPrivileges(ok) => AdvanceTgPrivileges(s, ok);
    case TgSeccomp(fd) => AdvanceTgSeccomp(s, fd);
    case TgStoreListener => AdvanceTgStoreListener(s);
    case TgStoreCreated => AdvanceTgStoreCreated(s);
    case TgExec(ok) => AdvanceTgExec(s, ok);
    case TgPublish => AdvanceTgPublish(s);
    case TgExit => AdvanceTgExit(s);
    case TgFinish => AdvanceTgFinish(s);
    case TgDie => AdvanceTgDie(s);
    case OutsideKillSpawner => AdvanceOutsideKillSpawner(s);
    case OutsideKillTarget => AdvanceOutsideKillTarget(s);
  }

  lemma Advance(s: System, a: Action)
    requires Inv(s) && Can(s, a)
    ensures Advances(s, a)
  {
    if AfterHandshake(a) {
      AdvanceAfterHandshake(s, a);
    } else if BySupervisor(a) {
      AdvanceBySupervisor(s, a);
    } else if BeforeHandshake(a) {
      AdvanceBeforeHandshake(s, a);
    } else if BySpawner(a) {
      AdvanceBySpawner(s, a);
    } else {
      AdvanceByTarget(s, a);
    }
  }

  // ----- executions

  /** A starting state, and every state the actions lead to. */
  ghost predicate IsExecution(states: seq<System>, actions: seq<Action>) {
    && |states| == |actions| + 1 && Init(states[0])
    && forall k {:trigger StepAt(states, actions, k)} :: 0 <= k < |actions| ==> StepAt(states, actions, k)
  }

  ghost predicate StepAt(states: seq<System>, actions: seq<Action>, k: nat)
    requires k < |actions| && k + 1 < |states|
  {
    Can(states[k], actions[k]) && states[k + 1] == Do(states[k], actions[k])
  }

  lemma {:induction false} ExecutionInv(states: seq<System>, actions: seq<Action>, k: nat)
    requires IsExecution(states, actions) && k < |states|
    ensures Inv(states[k])
    decreases k
  {
    if k == 0 {
      InitInv(states[0]);
    } else {
      ExecutionInv(states, actions, k - 1);
      assert StepAt(states, actions, k - 1);
      Advance(states[k - 1], actions[k - 1]);
    }
  }

  /** If the supervisor reports success, the milestones of startup were passed, each once and in
      this order, and the listener it received is the one the target created. */
  lemma SuccessMeans(states: seq<System>, actions: seq<Action>, k: nat)
    requires IsExecution(states, actions) && k < |states| && states[k].sup.outcome.Started?
    ensures var s := states[k];
      var Started(fd, pid) := s.sup.outcome;
      && pid == s.pid && s.hist.created == Some(fd) && s.hist.crossed && s.hist.attached
      && (s.tg.Running? || s.tg.Dead?)
      && s.hist.log == [Wrote(ListenerCreated), CrossedExec, Attached, ListenerSent(fd), Wrote(Spawned), PublishedDone, SpawnerExited(0)]
  {
    ExecutionInv(states, actions, k);
    SuccessState(states[k]);
  }

  lemma SuccessState(s: System)
    requires Inv(s) && s.sup.outcome.Started?
    ensures s.sup.outcome.pid == s.pid && s.hist.created == Some(s.sup.outcome.fd) && s.hist.crossed && s.hist.attached
    ensures s.tg.Running? || s.tg.Dead?
    ensures s.hist.log == [Wrote(ListenerCreated), CrossedExec, Attached, ListenerSent(s.sup.outcome.fd), Wrote(Spawned), PublishedDone, SpawnerExited(0)]
  {
  }

  // ----- no call is skipped

  predicate AtPrepare(s: System, a: Action, prep: Preparing, call: Action) { s.sp == Prepare(prep) && a == call }

  predicate AtLaunch(s: System, a: Action, step: Step) {
    match step
    case NoNewPrivileges => s.tg == Launching(Privileges) && a == TgPrivileges(true)
    case InstallSeccomp => s.tg == Launching(Seccomp) && a.TgSeccomp? && a.fd >= 0
    case _ => s.tg == Launching(Execve) && a == TgExec(true)
  }

  ghost predicate Prepared(states: seq<System>, actions: seq<Action>, k: nat, prep: Preparing, call: Action)
    requires |states| == |actions| + 1
  {
    exists j: nat :: j < k && j < |actions| && AtPrepare(states[j], actions[j], prep, call)
  }

  ghost predicate Launched(states: seq<System>, actions: seq<Action>, k: nat, step: Step)
    requires |states| == |actions| + 1
  {
    exists j: nat :: j < k && j < |actions| && AtLaunch(states[j], actions[j], step)
  }

  /** How far the spawner has come with its preparations; a clone means all the way. */
  function Preparations(s: System): nat {
    if s.tg != Unborn then 5
    else match s.sp
      case Prepare(SetStdout) => 1
      case Prepare(SetStderr) => 2
      case Prepare(CloseFds) => 3
      case Prepare(Clone) => 4
      case _ => 0
  }

  /** A step goes on by one at most, and only by the call that comes next. */
  lemma PreparationStep(s: System, a: Action)
    requires TargetOk(s) && Can(s, a)
    ensures var before, after := Preparations(s), Preparations(Do(s, a));
      after <= before || (after == before + 1 && s.sp.Prepare? && a == match s.sp.prep
        case CloseFds => SpCloseFds(true) case Clone => SpClone(true) case _ => SpSetStream(true))
    ensures s.sp.Prepare? && s.tg == Unborn ==> Preparations(s) == match s.sp.prep
        case SetStdin => 0 case SetStdout => 1 case SetStderr => 2 case CloseFds => 3 case Clone => 4
  {
    if BySupervisor(a) {
      SupervisorSpares(s, a);
      SupervisorLeavesSpawner(s, a);
    }
  }

  lemma {:induction false} PreparationsMade(states: seq<System>, actions: seq<Action>, k: nat)
    requires IsExecution(states, actions) && k < |states|
    ensures Preparations(states[k]) >= 1 ==> Prepared(states, actions, k, SetStdin, SpSetStream(true))
    ensures Preparations(states[k]) >= 2 ==> Prepared(states, actions, k, SetStdout, SpSetStream(true))
    ensures Preparations(states[k]) >= 3 ==> Prepared(states, actions, k, SetStderr, SpSetStream(true))
    ensures Preparations(states[k]) >= 4 ==> Prepared(states, actions, k, CloseFds, SpCloseFds(true))
    ensures Preparations(states[k]) >= 5 ==> Prepared(states, actions, k, Clone, SpClone(true))
    decreases k
  {
    if k > 0 {
      PreparationsMade(states, actions, k - 1);
      ExecutionInv(states, actions, k - 1);
      assert StepAt(states, actions, k - 1);
      PreparationStep(states[k - 1], actions[k - 1]);
      if Preparations(states[k]) > Preparations(states[k - 1]) {
        assert AtPrepare(states[k - 1], actions[k - 1], states[k - 1].sp.prep, actions[k - 1]);
      }
    }
  }

  /** How far the target has come on its way to exec. */
  function Launches(s: System): nat {
    if s.hist.crossed then 3
    else match s.tg
      case Launching(Seccomp) => 1
      case Launching(StoreListener(_)) => 2
      case Launching(StoreCreated) => 2
      case Launching(Execve) => 2
      case _ => 0
  }

  lemma LaunchStep(s: System, a: Action)
    requires Can(s, a)
    ensures var before, after := Launches(s), Launches(Do(s, a));
      after <= before || (after == before + 1 && AtLaunch(s, a,
        if before == 0 then NoNewPrivileges else if before == 1 then InstallSeccomp else Exec))
  {
    if BySupervisor(a) {
      SupervisorSpares(s, a);
      SupervisorCrossesNothing(s, a);
    } else if BySpawner(a) {
      SpawnerLaunches(s, a);
    }
  }

  lemma SpawnerLaunches(s: System, a: Action)
    requires Can(s, a) && BySpawner(a)
    ensures Launches(Do(s, a)) <= Launches(s)
  {
  }

  lemma {:induction false} LaunchesMade(states: seq<System>, actions: seq<Action>, k: nat)
    requires IsExecution(states, actions) && k < |states|
    ensures Launches(states[k]) >= 1 ==> Launched(states, actions, k, NoNewPrivileges)
    ensures Launches(states[k]) >= 2 ==> Launched(states, actions, k, InstallSeccomp)
    ensures Launches(states[k]) >= 3 ==> Launched(states, actions, k, Exec)
    decreases k
  {
    if k > 0 {
      LaunchesMade(states, actions, k - 1);
      assert StepAt(states, actions, k - 1);
      LaunchStep(states[k - 1], actions[k - 1]);
    }
  }

  /** Success means that every call was made, in its place, and succeeded. */
  lemma SuccessSkipsNothing(states: seq<System>, actions: seq<Action>, k: nat)
    requires IsExecution(states, actions) && k < |states| && states[k].sup.outcome.Started?
    ensures Prepared(states, actions, k, SetStdin, SpSetStream(true))
    ensures Prepared(states, actions, k, SetStdout, SpSetStream(true))
    ensures Prepared(states, actions, k, SetStderr, SpSetStream(true))
    ensures Prepared(states, actions, k, CloseFds, SpCloseFds(true))
    ensures Prepared(states, actions, k, Clone, SpClone(true))
    ensures Launched(states, actions, k, NoNewPrivileges)
    ensures Launched(states, actions, k, InstallSeccomp)
    ensures Launched(states, actions, k, Exec)
  {
    SuccessMeans(states, actions, k);
    PreparationsMade(states, actions, k);
    LaunchesMade(states, actions, k);
  }

  lemma {:induction false} MissedIff(states: seq<System>, actions: seq<Action>, k: nat)
    requires IsExecution(states, actions) && k < |states|
    ensures states[k].sup.missed <==> exists j :: 0 <= j < k && Misses(actions[j])
    decreases k
  {
    if k > 0 {
      MissedIff(states, actions, k - 1);
      MissedStep(states, actions, k - 1);
    }
  }

  lemma MissedStep(states: seq<System>, actions: seq<Action>, k: nat)
    requires IsExecution(states, actions) && k < |actions|
    ensures states[k + 1].sup.missed <==> states[k].sup.missed || Misses(actions[k])
  {
    ExecutionInv(states, actions, k);
    assert StepAt(states, actions, k);
    StepMissed(states[k], actions[k]);
  }

  lemma StepMissed(s: System, a: Action)
    requires OutcomeOk(s) && Can(s, a)
    ensures Do(s, a).sup.missed <==> s.sup.missed || Misses(a)
  {
    if a.SupPoll? || a.SupReap? {
      WaitMissed(s, a);
    } else if BySupervisor(a) {
      SupervisorMisses(s, a);
    }
  }

  lemma WaitMissed(s: System, a: Action)
    requires OutcomeOk(s) && Can(s, a) && (a.SupPoll? || a.SupReap?)
    ensures Do(s, a).sup.missed <==> Misses(a)
    ensures !s.sup.missed
  {
  }

  lemma SupervisorMisses(s: System, a: Action)
    requires Can(s, a) && BySupervisor(a) && !a.SupPoll? && !a.SupReap?
    ensures Do(s, a).sup.missed == s.sup.missed
  {
  }

  /** Once the spawner has published `done`, a failed startup leaves no target behind, exactly when
      no wait for the target ended without its exit ... */
  lemma FailureCleansUp(states: seq<System>, actions: seq<Action>, k: nat)
    requires IsExecution(states, actions) && k < |states|
    requires states[k].sup.pc.Returned? && states[k].sup.outcome.Refused? && states[k].sup.startupDone
    ensures states[k].tg.Unborn? || states[k].tg.Reaped? <==> forall j :: 0 <= j < k ==> !Misses(actions[j])
  {
    ExecutionInv(states, actions, k);
    MissedIff(states, actions, k);
  }

  /** ... and it always publishes it, unless it is killed from outside or waiting for it fails. */
  lemma FailureCleansUpUndisturbed(states: seq<System>, actions: seq<Action>, k: nat)
    requires IsExecution(states, actions) && k < |states|
    requires states[k].sup.pc.Returned? && states[k].sup.outcome.Refused?
    requires OutsideKillSpawner !in actions && SupWait(false) !in actions
    ensures states[k].tg.Unborn? || states[k].tg.Reaped? <==> forall j :: 0 <= j < k ==> !Misses(actions[j])
  {
    Undisturbed(states, actions, k);
    ExecutionInv(states, actions, k);
    FailureCleansUp(states, actions, k);
  }

  lemma {:induction false} Undisturbed(states: seq<System>, actions: seq<Action>, k: nat)
    requires IsExecution(states, actions) && k < |states|
    requires OutsideKillSpawner !in actions && SupWait(false) !in actions
    ensures Calm(states[k])
    decreases k
  {
    if k > 0 {
      Undisturbed(states, actions, k - 1);
      ExecutionInv(states, actions, k - 1);
      assert actions[k - 1] in actions && StepAt(states, actions, k - 1);
      Advance(states[k - 1], actions[k - 1]);
    }
  }

  // ----- which failure is reported

  predicate SameFailure(s: System, t: System) {
    t.shared.state == s.shared.state == Failed && t.shared.errorStep == s.shared.errorStep
  }

  lemma SupervisorStays(s: System, a: Action)
    requires Can(s, a) && BySupervisor(a)
    ensures Do(s, a).shared == s.shared
  {
  }

  lemma SpawnerStays(s: System, a: Action)
    requires WordsOk(s) && Can(s, a) && BySpawner(a) && s.shared.state == Failed
    ensures SameFailure(s, Do(s, a))
  {
  }

  lemma TargetStays(s: System, a: Action)
    requires WordsOk(s) && Can(s, a) && !BySpawner(a) && !BySupervisor(a) && s.shared.state == Failed
    ensures SameFailure(s, Do(s, a))
  {
  }

  lemma FailureStep(states: seq<System>, actions: seq<Action>, k: nat)
    requires IsExecution(states, actions) && k < |actions| && states[k].shared.state == Failed
    ensures SameFailure(states[k], states[k + 1])
  {
    ExecutionInv(states, actions, k);
    assert StepAt(states, actions, k);
    if BySupervisor(actions[k]) {
      SupervisorStays(states[k], actions[k]);
    } else if BySpawner(actions[k]) {
      SpawnerStays(states[k], actions[k]);
    } else {
      TargetStays(states[k], actions[k]);
    }
  }

  /** A recorded failure is never overwritten, by another failure or by success. */
  lemma {:induction false} FailureKept(states: seq<System>, actions: seq<Action>, j: nat, k: nat)
    requires IsExecution(states, actions) && j <= k < |states| && states[j].shared.state == Failed
    ensures SameFailure(states[j], states[k])
    decreases k
  {
    if j < k {
      FailureKept(states, actions, j, k - 1);
      FailureStep(states, actions, k - 1);
    }
  }

  /** So once the spawner has published `done`, the failure recorded first is the one reported,
      unless the tracer could not attach, which takes precedence. */
  lemma FirstFailureReported(states: seq<System>, actions: seq<Action>, j: nat, k: nat)
    requires IsExecution(states, actions) && j <= k < |states|
    requires states[j].shared.state == Failed && states[k].sup.startupDone
    ensures states[k].sup.outcome == Refused(
      if states[k].sup.listener == Lost(AttachTracer) then AttachTracer else states[j].shared.errorStep)
  {
    ExecutionInv(states, actions, k);
    FailureKept(states, actions, j, k);
  }

  /** A target that has become the program is sent a kill whenever startup fails. */
  lemma FailureKills(states: seq<System>, actions: seq<Action>, k: nat)
    requires IsExecution(states, actions) && k < |states|
    requires states[k].shared.done && states[k].shared.state == Failed && states[k].hist.crossed
    ensures states[k].signalled
  {
    ExecutionInv(states, actions, k);
  }

  /** The failure `step` is on record, about to be recorded, or lost with a killed spawner. */
  predicate Due(s: System, step: Step) {
    || (s.sp.Record? && s.sp.step == step)
    || s.tg == Launching(Publish(step))
    || (s.shared.state == Failed && s.shared.errorStep == step)
    || (s.sp.Killed? && !s.shared.done)
  }

  lemma PendingBySupervisor(s: System, a: Action, step: Step)
    requires Can(s, a) && BySupervisor(a) && Due(s, step) && OutcomeOk(s)
    ensures Due(Do(s, a), step)
  {
    SupervisorStays(s, a);
    SupervisorSpares(s, a);
    SupervisorLeavesSpawner(s, a);
  }

  lemma SupervisorLeavesSpawner(s: System, a: Action)
    requires Can(s, a) && BySupervisor(a)
    ensures Do(s, a).sp == s.sp
    ensures s.tg.Launching? && OutcomeOk(s) ==> Do(s, a).tg == s.tg
  {
  }

  lemma PendingBySpawner(s: System, a: Action, step: Step)
    requires Can(s, a) && BySpawner(a) && Due(s, step) && TargetOk(s) && WordsOk(s)
    ensures Due(Do(s, a), step)
  {
    if s.shared.state == Failed { SpawnerStays(s, a); }
  }

  lemma PendingByTarget(s: System, a: Action, step: Step)
    requires Can(s, a) && !BySupervisor(a) && !BySpawner(a) && Due(s, step) && TargetOk(s) && WordsOk(s)
    requires a == TgDie ==> s.tg != Launching(Publish(step))
    ensures Due(Do(s, a), step)
  {
    if s.shared.state == Failed { TargetStays(s, a); }
  }

  /** The target is killed between a failing call and the record of it. */
  ghost predicate CutShort(states: seq<System>, actions: seq<Action>, j: nat, k: nat)
    requires |states| == |actions| + 1
  {
    exists m: nat :: j < m < k && m < |actions| && CutShortAt(states[m], actions[m])
  }

  predicate CutShortAt(s: System, a: Action) { a == TgDie && s.tg.Launching? && s.tg.at.Publish? }

  lemma {:induction false} PendingKept(states: seq<System>, actions: seq<Action>, j: nat, k: nat, step: Step)
    requires IsExecution(states, actions) && j < k < |states| && Due(states[j + 1], step)
    requires !CutShort(states, actions, j, k)
    ensures Due(states[k], step)
    decreases k
  {
    if j + 1 < k {
      assert !CutShortAt(states[k - 1], actions[k - 1]);
      PendingKept(states, actions, j, k - 1, step);
      PendingStep(states, actions, k - 1, step);
    }
  }

  lemma PendingStep(states: seq<System>, actions: seq<Action>, k: nat, step: Step)
    requires IsExecution(states, actions) && k < |actions| && Due(states[k], step)
    requires !CutShortAt(states[k], actions[k])
    ensures Due(states[k + 1], step)
  {
    ExecutionInv(states, actions, k);
    assert StepAt(states, actions, k);
    if BySupervisor(actions[k]) {
      PendingBySupervisor(states[k], actions[k], step);
    } else if BySpawner(actions[k]) {
      PendingBySpawner(states[k], actions[k], step);
    } else {
      PendingByTarget(states[k], actions[k], step);
    }
  }

  /** The verdict on a pending failure. */
  lemma PendingReported(states: seq<System>, actions: seq<Action>, j: nat, k: nat, step: Step)
    requires IsExecution(states, actions) && j < k < |states| && Due(states[j + 1], step)
    requires states[k].sup.startupDone && states[k].sup.listener != Lost(AttachTracer)
    requires !CutShort(states, actions, j, k)
    ensures states[k].sup.outcome == Refused(step)
  {
    PendingKept(states, actions, j, k, step);
    ExecutionInv(states, actions, k);
  }

  /** Each call of the spawner stands for a step of its own; if it fails, and the spawner lives to say
      so, this is the step that is reported, unless the tracer could not attach. */
  lemma SpawnerFailureReported(states: seq<System>, actions: seq<Action>, j: nat, k: nat)
    requires IsExecution(states, actions) && j < k < |states|
    requires states[k].sup.startupDone && states[k].sup.listener != Lost(AttachTracer)
    ensures actions[j] == SpSetStream(false) && states[j].sp == Prepare(SetStdin) ==>
      states[k].sup.outcome == Refused(Stdin)
    ensures actions[j] == SpSetStream(false) && states[j].sp == Prepare(SetStdout) ==>
      states[k].sup.outcome == Refused(Stdout)
    ensures actions[j] == SpSetStream(false) && states[j].sp == Prepare(SetStderr) ==>
      states[k].sup.outcome == Refused(Stderr)
    ensures actions[j] == SpCloseFds(false) ==> states[k].sup.outcome == Refused(CloseDescriptors)
    ensures actions[j] == SpClone(false) ==> states[k].sup.outcome == Refused(CloneTarget)
    ensures actions[j] == SpCheckCreated && states[j].shared.state != ListenerCreated ==>
      states[k].sup.outcome == Refused(Exec)
    ensures actions[j] == SpSendReady(false) ==> states[k].sup.outcome == Refused(TransferListener)
    ensures actions[j] == SpRecvAttached(false) ==> states[k].sup.outcome == Refused(TransferListener)
    ensures actions[j] == SpSendListener(false) ==> states[k].sup.outcome == Refused(TransferListener)
  {
    assert StepAt(states, actions, j);
    if states[j + 1].sp.Record? {
      NotCutShort(states, actions, j, k);
      PendingReported(states, actions, j, k, states[j + 1].sp.step);
    }
  }

  /** While the spawner records a failure the target is past its own, or was never made. */
  lemma {:induction false} NotCutShort(states: seq<System>, actions: seq<Action>, j: nat, k: nat)
    requires IsExecution(states, actions) && j < k < |states| && states[j + 1].sp.Record?
    ensures !CutShort(states, actions, j, k)
    ensures !states[k].tg.Launching? && AfterFailure(states[k].sp)
    decreases k
  {
    if j + 1 < k {
      NotCutShort(states, actions, j, k - 1);
      LandedStep(states, actions, k - 1);
      assert !CutShortAt(states[k - 1], actions[k - 1]);
    } else {
      ExecutionInv(states, actions, k);
    }
  }

  predicate AfterFailure(sp: Spawner) { sp.Record? || sp.KillIt? || Ending(sp) || sp.Killed? }

  lemma LandedStep(states: seq<System>, actions: seq<Action>, k: nat)
    requires IsExecution(states, actions) && k < |actions|
    requires !states[k].tg.Launching? && AfterFailure(states[k].sp)
    ensures !states[k + 1].tg.Launching? && AfterFailure(states[k + 1].sp)
  {
    assert StepAt(states, actions, k);
    Landed(states[k], actions[k]);
  }

  lemma Landed(s: System, a: Action)
    requires Can(s, a) && !s.tg.Launching? && AfterFailure(s.sp)
    ensures !Do(s, a).tg.Launching? && AfterFailure(Do(s, a).sp)
  {
    if BySupervisor(a) {
      SupervisorSpares(s, a);
      SupervisorLeavesSpawner(s, a);
    } else if BySpawner(a) {
      LandedSpawner(s, a);
    }
  }

  lemma LandedSpawner(s: System, a: Action)
    requires Can(s, a) && BySpawner(a) && !s.tg.Launching? && AfterFailure(s.sp)
    ensures Do(s, a).tg == s.tg && AfterFailure(Do(s, a).sp)
  {
  }

  /** So does each call of the target, if it lives to say so ... */
  lemma TargetFailureReported(states: seq<System>, actions: seq<Action>, j: nat, k: nat)
    requires IsExecution(states, actions) && j < k < |states| && !CutShort(states, actions, j, k)
    requires states[k].sup.startupDone && states[k].sup.listener != Lost(AttachTracer)
    ensures actions[j] == TgPrivileges(false) ==> states[k].sup.outcome == Refused(NoNewPrivileges)
    ensures actions[j].TgSeccomp? && actions[j].fd < 0 ==> states[k].sup.outcome == Refused(InstallSeccomp)
    ensures actions[j] == TgExec(false) ==> states[k].sup.outcome == Refused(Exec)
  {
    assert StepAt(states, actions, j);
    if states[j + 1].tg.Launching? && states[j + 1].tg.at.Publish? {
      PendingReported(states, actions, j, k, states[j + 1].tg.at.step);
    }
  }

  /** A target killed before it could record a failure: the spawner finds no listener, or one that
      nobody comes to attach to. */
  predicate Orphaned(s: System, exec: bool) {
    && s.tg != Unborn && !s.tg.Launching? && !s.hist.crossed
    && ((s.sp.Killed? && !s.shared.done)
        || (s.shared.state == Failed && s.shared.errorStep == if exec then TransferListener else Exec)
        || (s.shared.state == (if exec then ListenerCreated else Empty) && OrphanedSpawner(s.sp, exec)))
  }

  predicate OrphanedSpawner(sp: Spawner, exec: bool) {
    || sp.Suspended? || sp == Check(StorePid) || sp == Check(CheckFailed) || sp == Check(CheckCreated)
    || (exec && (sp == Check(LoadListener) || sp == Check(SendReady) || sp.RecvAttached?))
    || sp == Record(if exec then TransferListener else Exec, true)
  }

  lemma OrphanedBySupervisor(s: System, a: Action, exec: bool)
    requires Can(s, a) && BySupervisor(a) && Orphaned(s, exec)
    ensures Orphaned(Do(s, a), exec)
  {
    SupervisorStays(s, a);
    SupervisorSpares(s, a);
    SupervisorLeavesSpawner(s, a);
    SupervisorCrossesNothing(s, a);
  }

  lemma SupervisorCrossesNothing(s: System, a: Action)
    requires Can(s, a) && BySupervisor(a)
    ensures Do(s, a).hist.crossed == s.hist.crossed
  {
  }

  lemma OrphanedBySpawner(s: System, a: Action, exec: bool)
    requires Can(s, a) && BySpawner(a) && Orphaned(s, exec) && TargetOk(s) && WordsOk(s) && MessagesOk(s) && TransferOk(s)
    ensures Orphaned(Do(s, a), exec)
  {
    if s.shared.state == Failed { SpawnerStays(s, a); }
  }

  lemma OrphanedByTarget(s: System, a: Action, exec: bool)
    requires Can(s, a) && !BySupervisor(a) && !BySpawner(a) && Orphaned(s, exec) && TargetOk(s) && WordsOk(s)
    ensures Orphaned(Do(s, a), exec)
  {
    if s.shared.state == Failed { TargetStays(s, a); }
  }

  lemma OrphanedStep(states: seq<System>, actions: seq<Action>, k: nat, exec: bool)
    requires IsExecution(states, actions) && k < |actions| && Orphaned(states[k], exec)
    ensures Orphaned(states[k + 1], exec)
  {
    ExecutionInv(states, actions, k);
    assert StepAt(states, actions, k);
    if BySupervisor(actions[k]) {
      OrphanedBySupervisor(states[k], actions[k], exec);
    } else if BySpawner(actions[k]) {
      OrphanedBySpawner(states[k], actions[k], exec);
    } else {
      OrphanedByTarget(states[k], actions[k], exec);
    }
  }

  lemma {:induction false} OrphanedKept(states: seq<System>, actions: seq<Action>, m: nat, k: nat, exec: bool)
    requires IsExecution(states, actions) && m < k < |states| && Orphaned(states[m + 1], exec)
    ensures Orphaned(states[k], exec)
    decreases k
  {
    if m + 1 < k {
      OrphanedKept(states, actions, m, k - 1, exec);
      OrphanedStep(states, actions, k - 1, exec);
    }
  }

  /** ... and only then: killed before it could say so, it leaves another step to be reported. */
  lemma CutShortReported(states: seq<System>, actions: seq<Action>, m: nat, k: nat)
    requires IsExecution(states, actions) && m < k < |states| && CutShortAt(states[m], actions[m])
    requires states[k].sup.startupDone && states[k].sup.listener != Lost(AttachTracer)
    ensures states[k].sup.outcome == Refused(if states[m].tg.at.step == Exec then TransferListener else Exec)
    ensures states[k].sup.outcome != Refused(states[m].tg.at.step)
  {
    ExecutionInv(states, actions, m);
    assert StepAt(states, actions, m);
    var exec := states[m].tg.at.step == Exec;
    OrphanedKept(states, actions, m, k, exec);
    ExecutionInv(states, actions, k);
  }

  lemma LostStep(states: seq<System>, actions: seq<Action>, k: nat)
    requires IsExecution(states, actions) && k < |actions| && states[k].sup.listener.Lost?
    ensures states[k + 1].sup.listener == states[k].sup.listener
  {
    ExecutionInv(states, actions, k);
    assert StepAt(states, actions, k);
    if BySupervisor(actions[k]) { LostBySupervisor(states[k], actions[k]); }
  }

  lemma LostBySupervisor(s: System, a: Action)
    requires Can(s, a) && BySupervisor(a) && s.sup.listener.Lost? && TransferOk(s)
    ensures Do(s, a).sup.listener == s.sup.listener
  {
  }

  lemma {:induction false} LostKept(states: seq<System>, actions: seq<Action>, j: nat, k: nat)
    requires IsExecution(states, actions) && j < k < |states| && states[j + 1].sup.listener.Lost?
    ensures states[k].sup.listener == states[j + 1].sup.listener
    decreases k
  {
    if j + 1 < k {
      LostKept(states, actions, j, k - 1);
      LostStep(states, actions, k - 1);
    }
  }

  /** The supervisor's own calls: a tracer that cannot attach is reported as such; a lost message is,
      unless a failure of the others is on record, or the spawner was killed on its way out. */
  lemma SupervisorFailureReported(states: seq<System>, actions: seq<Action>, j: nat, k: nat)
    requires IsExecution(states, actions) && j < k < |states| && states[k].sup.startupDone
    ensures actions[j] == SupSeize(false) ==> states[k].sup.outcome == Refused(AttachTracer)
    ensures actions[j] == SupRecvReady(false) || actions[j] == SupSendAttached(false) || actions[j] == SupRecvListener(false) ==>
      states[k].sup.outcome == Refused(
        if states[k].shared.state == Failed then states[k].shared.errorStep
        else if states[k].sp == Exited(0) then TransferListener else CloneTarget)
  {
    assert StepAt(states, actions, j);
    ExecutionInv(states, actions, k);
    if states[j + 1].sup.listener.Lost? {
      LostKept(states, actions, j, k);
    }
  }

  /** Without word from the spawner, or when waiting for it fails, the clone is blamed. */
  lemma SilenceReported(states: seq<System>, actions: seq<Action>, k: nat)
    requires IsExecution(states, actions) && k < |states| && states[k].sup.pc.Returned? && !states[k].sup.startupDone
    ensures states[k].sup.outcome == Refused(CloneTarget)
    ensures states[k].sup.waitFailed || (states[k].sp.Killed? && !states[k].shared.done)
  {
    ExecutionInv(states, actions, k);
  }

  // ----- startup succeeds when nothing fails

  /** Every call succeeds, and nobody is killed. */
  predicate Smooth(a: Action) {
    match a
    case SupRecvReady(ok) => ok
    case SupSeize(ok) => ok
    case SupSendAttached(ok) => ok
    case SupRecvListener(ok) => ok
    case SupWait(ok) => ok
    case SpSetStream(ok) => ok
    case SpCloseFds(ok) => ok
    case SpClone(ok) => ok
    case SpSendReady(ok) => ok
    case SpRecvAttached(ok) => ok
    case SpSendListener(ok) => ok
    case TgPrivileges(ok) => ok
    case TgSeccomp(fd) => fd >= 0
    case TgExec(ok) => ok
    case _ => !Outside(a) && !Misses(a)
  }

  predicate AllSmooth(actions: seq<Action>) { forall j :: 0 <= j < |actions| ==> Smooth(actions[j]) }

  /** Nobody is on a path to failure. */
  predicate OnTrack(s: System) {
    && !s.signalled && s.shared.state != Failed
    && !s.sp.Record? && !s.sp.KillIt? && !s.sp.Killed? && (Ending(s.sp) ==> s.sp.code == 0)
    && (s.tg.Launching? ==> !s.tg.at.Publish? && !s.tg.at.ExitFailed?)
    && (s.tg.Dead? ==> s.hist.crossed)
    && !s.sup.listener.Lost? && !s.sup.outcome.Refused?
  }

  lemma SmoothSupervisor(s: System, a: Action)
    requires Inv(s) && OnTrack(s) && Can(s, a) && Smooth(a) && BySupervisor(a)
    ensures OnTrack(Do(s, a))
  {
  }

  /** The spawner's steps that decide by what they find. */
  predicate Decides(a: Action) {
    a.SpCheckFailed? || a.SpCheckCreated? || a.SpLoadListener? || a.SpRecvAttached?
  }

  lemma SmoothDecision(s: System, a: Action)
    requires TargetOk(s) && WordsOk(s) && TransferOk(s) && OnTrack(s) && !s.tg.Reaped?
    requires Can(s, a) && Smooth(a) && Decides(a)
    ensures OnTrack(Do(s, a))
  {
  }

  lemma SmoothSpawner(s: System, a: Action)
    requires OnTrack(s) && Can(s, a) && Smooth(a) && BySpawner(a) && !Decides(a)
    ensures OnTrack(Do(s, a))
  {
  }

  lemma SmoothTarget(s: System, a: Action)
    requires Inv(s) && OnTrack(s) && Can(s, a) && Smooth(a) && !BySupervisor(a) && !BySpawner(a)
    ensures OnTrack(Do(s, a))
  {
  }

  lemma SmoothStep(s: System, a: Action)
    requires Inv(s) && OnTrack(s) && Can(s, a) && Smooth(a)
    ensures OnTrack(Do(s, a))
  {
    if BySupervisor(a) {
      SmoothSupervisor(s, a);
    } else if Decides(a) {
      SmoothDecision(s, a);
    } else if BySpawner(a) {
      SmoothSpawner(s, a);
    } else {
      SmoothTarget(s, a);
    }
  }

  lemma {:induction false} StaysOnTrack(states: seq<System>, actions: seq<Action>, k: nat)
    requires IsExecution(states, actions) && k < |states|
    requires AllSmooth(actions)
    ensures OnTrack(states[k])
    decreases k
  {
    if k > 0 {
      StaysOnTrack(states, actions, k - 1);
      ExecutionInv(states, actions, k - 1);
      assert StepAt(states, actions, k - 1);
      SmoothStep(states[k - 1], actions[k - 1]);
    }
  }

  /** If no call fails and nobody is killed, a supervisor that returns reports success, in every
      interleaving. */
  lemma SmoothStartupSucceeds(states: seq<System>, actions: seq<Action>, k: nat)
    requires IsExecution(states, actions) && k < |states| && states[k].sup.pc.Returned?
    requires AllSmooth(actions)
    ensures states[k].sup.outcome.Started?
  {
    StaysOnTrack(states, actions, k);
    ExecutionInv(states, actions, k);
  }

  /** The program ran to its end before the tracer could attach to it. */
  predicate DiedEarly(s: System) { s.tg.Dead? && !s.hist.attached }

  /** Until the supervisor returns, some party can move on without any call failing, unless the
      program is over too early; and it need not be over then. */
  lemma SmoothMoves(s: System) returns (a: Action)
    requires Inv(s) && OnTrack(s) && !s.sup.pc.Returned? && !DiedEarly(s)
    ensures Can(s, a) && Smooth(a) && a != TgFinish
    ensures !SpawnerAlive(s) || a != SupRecvListener(true)
  {
    if SpawnerAlive(s) {
      a := SmoothSpawnerMoves(s);
    } else {
      a := SmoothSupervisorMoves(s);
    }
  }

  lemma SmoothSpawnerMoves(s: System) returns (a: Action)
    requires Inv(s) && OnTrack(s) && !s.sup.pc.Returned? && !DiedEarly(s) && SpawnerAlive(s)
    ensures Can(s, a) && Smooth(a) && a != TgFinish && a != SupRecvListener(true)
  {
    if s.sp.Suspended? {
      if s.tg.Launching? { a := TargetMoves(s); } else { a := SpResume; }
    } else if s.sp.RecvAttached? {
      if s.net.toSp != [] { a := SpRecvAttached(true); } else { a := SmoothHandshakeMoves(s); }
    } else {
      a := SpawnerMoves(s, true);
    }
  }

  lemma SmoothHandshakeMoves(s: System) returns (a: Action)
    requires Inv(s) && OnTrack(s) && !DiedEarly(s) && s.sp.RecvAttached? && s.net.toSp == []
    ensures Can(s, a) && Smooth(a) && a != TgFinish && a != SupRecvListener(true)
  {
    match s.sup.pc
    case DropSpare => a := SupDropSpare;
    case RecvReady => a := SupRecvReady(true);
    case LoadPid => a := SupLoadPid;
    case Seize => a := SupSeize(true);
    case SendAttached => a := SupSendAttached(true);
  }

  lemma SmoothSupervisorMoves(s: System) returns (a: Action)
    requires Inv(s) && OnTrack(s) && !s.sup.pc.Returned? && !SpawnerAlive(s)
    ensures Can(s, a) && Smooth(a) && a != TgFinish
  {
    match s.sup.pc
    case RecvListener => a := SupRecvListener(true);
    case WaitSpawner => a := SupWait(true);
    case Judge => a := SupJudge;
  }

  /** So an execution without failures that can go on in no such way has succeeded, or the program
      was over too early. */
  lemma SmoothExecutionsSucceed(states: seq<System>, actions: seq<Action>)
    requires IsExecution(states, actions) && AllSmooth(actions)
    requires forall a :: Smooth(a) && Can(states[|actions|], a) ==> a == TgFinish
    ensures states[|actions|].sup.outcome.Started? || DiedEarly(states[|actions|])
  {
    var k := |actions|;
    if !states[k].sup.pc.Returned? && !DiedEarly(states[k]) {
      ExecutionInv(states, actions, k);
      StaysOnTrack(states, actions, k);
      var a := SmoothMoves(states[k]);
    } else if states[k].sup.pc.Returned? {
      SmoothStartupSucceeds(states, actions, k);
    }
  }

  /** Startup under way: nothing has failed, the program is not over. */
  ghost predicate UnderWay(states: seq<System>, actions: seq<Action>) {
    IsExecution(states, actions) && AllSmooth(actions) && !states[|actions|].tg.Dead?
  }

  /** The listener is on its way, and the spawner has left. */
  predicate Parting(s: System) { s.sup.pc.RecvListener? && s.sp.Exited? }

  lemma StillAlive(s: System, a: Action)
    requires OnTrack(s) && Can(s, a) && Smooth(a) && a != TgFinish && !s.tg.Dead?
    ensures !Do(s, a).tg.Dead?
  {
    if BySupervisor(a) {
      SupervisorSpares(s, a);
    } else if BySpawner(a) {
      SpawnerSpares(s, a);
    }
  }

  lemma SupervisorSpares(s: System, a: Action)
    requires Can(s, a) && BySupervisor(a)
    ensures Do(s, a).tg == s.tg || Do(s, a).tg.Reaped?
  {
  }

  lemma SpawnerSpares(s: System, a: Action)
    requires Can(s, a) && BySpawner(a)
    ensures Do(s, a).tg == s.tg || Do(s, a).tg.Launching?
  {
  }

  lemma Extended(states: seq<System>, actions: seq<Action>, a: Action)
    requires IsExecution(states, actions) && Can(states[|actions|], a)
    ensures IsExecution(states + [Do(states[|actions|], a)], actions + [a])
  {
    var states', actions' := states + [Do(states[|actions|], a)], actions + [a];
    forall k | 0 <= k < |actions'| ensures StepAt(states', actions', k) {
      assert k < |actions| ==> StepAt(states, actions, k);
    }
  }

  /** Goes on until the supervisor returns, or only until the spawner has left. */
  lemma {:induction false} GoOn(states: seq<System>, actions: seq<Action>, pause: bool)
    returns (states': seq<System>, actions': seq<Action>)
    requires UnderWay(states, actions)
    requires pause ==> Before(states[|actions|].sup.pc)
    ensures UnderWay(states', actions') && states' != [] && states'[0] == states[0]
    ensures if pause then Parting(states'[|actions'|]) else states'[|actions'|].sup.pc.Returned?
    decreases Work(states[|actions|])
  {
    var s := states[|actions|];
    if (pause && Parting(s)) || s.sup.pc.Returned? {
      return states, actions;
    }
    ExecutionInv(states, actions, |actions|);
    StaysOnTrack(states, actions, |actions|);
    var a := SmoothMoves(s);
    StillAlive(s, a);
    Extended(states, actions, a);
    StepShrinks(states + [Do(s, a)], actions + [a], |actions|);
    if pause { StaysBefore(s, a); }
    states', actions' := GoOn(states + [Do(s, a)], actions + [a], pause);
  }

  /** The supervisor has not received the listener yet. */
  predicate Before(pc: Supervisor) {
    pc.DropSpare? || pc.RecvReady? || pc.LoadPid? || pc.Seize? || pc.SendAttached? || pc.RecvListener?
  }

  lemma StaysBefore(s: System, a: Action)
    requires Inv(s) && OnTrack(s) && Can(s, a) && Smooth(a) && Before(s.sup.pc) && !Parting(s)
    requires !SpawnerAlive(s) || a != SupRecvListener(true)
    ensures Before(Do(s, a).sup.pc)
  {
    if BySupervisor(a) { SmoothSupervisor(s, a); }
  }

  /** From every starting state, startup can succeed. */
  lemma StartupCanSucceed(s: System) returns (states: seq<System>, actions: seq<Action>)
    requires Init(s)
    ensures IsExecution(states, actions) && states[0] == s && AllSmooth(actions)
    ensures states[|actions|].sup.outcome.Started?
  {
    states, actions := GoOn([s], [], false);
    SmoothStartupSucceeds(states, actions, |actions|);
  }

  /** The rest of an execution. */
  ghost predicate Leads(s: System, actions: seq<Action>, t: System)
    decreases |actions|
  {
    if actions == [] then s == t
    else Can(s, actions[0]) && Leads(Do(s, actions[0]), actions[1..], t)
  }

  lemma {:induction false} Resumed(states: seq<System>, actions: seq<Action>, more: seq<Action>, t: System)
    returns (states': seq<System>)
    requires IsExecution(states, actions) && Leads(states[|actions|], more, t)
    ensures IsExecution(states', actions + more) && states'[0] == states[0] && states'[|actions| + |more|] == t
    decreases |more|
  {
    if more == [] {
      assert actions + more == actions;
      states' := states;
    } else {
      Extended(states, actions, more[0]);
      states' := Resumed(states + [Do(states[|actions|], more[0])], actions + [more[0]], more[1..], t);
      assert actions + [more[0]] + more[1..] == actions + more;
    }
  }

  function Losing(): (actions: seq<Action>)
    ensures Undisturbing(actions)
  {
    [SupRecvListener(false), SupDropSocket, SupWait(true), SupJudge, SupPoll(Stopped)]
  }

  /** The listener is lost on the way, and the target is stopped under the tracer when polled. */
  lemma LostAndStopped(s: System) returns (t: System)
    requires Inv(s) && OnTrack(s) && Parting(s) && s.tg.Running?
    ensures Leads(s, Losing(), t)
    ensures t.sup.pc.Returned? && t.sup.outcome == Refused(TransferListener) && t.tg.Running? && !t.signalled
  {
    var judging := Judging(s);
    var polling := Do(judging, SupJudge);
    assert Verdict(judging) == Refused(TransferListener);
    t := Do(polling, SupPoll(Stopped));
    assert Leads(t, [], t);
    assert Leads(polling, [SupPoll(Stopped)], t);
    assert Leads(judging, [SupJudge, SupPoll(Stopped)], t);
    LeadsToJudging(s, [SupJudge, SupPoll(Stopped)], t);
    assert Losing() == [SupRecvListener(false), SupDropSocket, SupWait(true)] + [SupJudge, SupPoll(Stopped)];
  }

  /** The supervisor about to judge, without a listener. */
  function Judging(s: System): System {
    s.(net := s.net.(supEnd := false), sup := s.sup.(listener := Lost(TransferListener), pc := Judge))
  }

  lemma LeadsToJudging(s: System, rest: seq<Action>, t: System)
    requires Parting(s) && Leads(Judging(s), rest, t)
    ensures Leads(s, [SupRecvListener(false), SupDropSocket, SupWait(true)] + rest, t)
  {
    var lost := Do(s, SupRecvListener(false));
    var dropped := Do(lost, SupDropSocket);
    assert Do(dropped, SupWait(true)) == Judging(s);
    assert ([SupWait(true)] + rest)[1..] == rest;
    assert Leads(dropped, [SupWait(true)] + rest, t);
    assert ([SupDropSocket, SupWait(true)] + rest)[1..] == [SupWait(true)] + rest;
    assert Leads(lost, [SupDropSocket, SupWait(true)] + rest, t);
    assert ([SupRecvListener(false), SupDropSocket, SupWait(true)] + rest)[1..] == [SupDropSocket, SupWait(true)] + rest;
  }

  /** A failure after which the target is still running, untouched. */
  lemma StoppedTargetSurvives(s: System) returns (states: seq<System>, actions: seq<Action>)
    requires Init(s)
    ensures IsExecution(states, actions) && states[0] == s
    ensures Undisturbing(actions)
    ensures var last := states[|actions|];
      last.sup.pc.Returned? && last.sup.outcome == Refused(TransferListener) && last.tg.Running? && !last.signalled
  {
    var before, done := GoOn([s], [], true);
    states, actions := Lose(before, done);
  }

  lemma Lose(before: seq<System>, done: seq<Action>) returns (states: seq<System>, actions: seq<Action>)
    requires UnderWay(before, done) && Parting(before[|done|])
    ensures IsExecution(states, actions) && states[0] == before[0] && Undisturbing(actions)
    ensures var last := states[|actions|];
      last.sup.pc.Returned? && last.sup.outcome == Refused(TransferListener) && last.tg.Running? && !last.signalled
  {
    PartingRuns(before, done);
    var last := LostAndStopped(before[|done|]);
    states := Resumed(before, done, Losing(), last);
    actions := done + Losing();
    SmoothUndisturbing(done, Losing());
  }

  /** Nobody is killed from outside, and waiting for the spawner does not fail. */
  predicate Undisturbing(actions: seq<Action>) {
    forall j :: 0 <= j < |actions| ==> !Outside(actions[j]) && actions[j] != SupWait(false)
  }

  lemma SmoothUndisturbing(actions: seq<Action>, more: seq<Action>)
    requires AllSmooth(actions) && Undisturbing(more)
    ensures Undisturbing(actions + more)
  {
  }

  lemma PartingRuns(states: seq<System>, actions: seq<Action>)
    requires UnderWay(states, actions) && Parting(states[|actions|])
    ensures Inv(states[|actions|]) && OnTrack(states[|actions|]) && states[|actions|].tg.Running?
  {
    ExecutionInv(states, actions, |actions|);
    StaysOnTrack(states, actions, |actions|);
  }

  // ----- it always ends

  /** A receive that fails although its queue may still be filled. */
  predicate Spontaneous(s: System, a: Action) {
    match a
    case SupRecvReady(ok) => !ok && s.net.toSup == [] && SpawnerSideOpen(s)
    case SupRecvListener(ok) => !ok && s.net.toSup == [] && SpawnerSideOpen(s)
    case SpRecvAttached(ok) => !ok && s.net.toSp == [] && SupervisorSideOpen(s)
    case _ => false
  }

  /** The step needs no help from outside, no receive that fails by itself and no failing wait. */
  predicate Unaided(s: System, a: Action) {
    !Outside(a) && !Spontaneous(s, a) && a != SupWait(false) && !Misses(a)
  }

  /** Until the supervisor returns, some party can move unaided: nobody waits for a message that
      cannot come any more. */
  lemma NeverStuck(states: seq<System>, actions: seq<Action>, k: nat) returns (a: Action)
    requires IsExecution(states, actions) && k < |states| && !states[k].sup.pc.Returned?
    ensures Can(states[k], a) && Unaided(states[k], a)
  {
    ExecutionInv(states, actions, k);
    if SpawnerAlive(states[k]) {
      a := SpawnerSideMoves(states[k]);
    } else {
      a := OthersMove(states[k]);
    }
  }

  lemma TargetMoves(s: System) returns (a: Action)
    requires s.tg.Launching?
    ensures Can(s, a) && Unaided(s, a) && (Smooth(a) || s.tg.at.Publish? || s.tg.at.ExitFailed?) && a != TgFinish
    ensures !a.SupRecvListener?
  {
    match s.tg.at
    case Privileges => a := TgPrivileges(true);
    case Seccomp => a := TgSeccomp(0);
    case StoreListener(_) => a := TgStoreListener;
    case StoreCreated => a := TgStoreCreated;
    case Execve => a := TgExec(true);
    case Publish(_) => a := TgPublish;
    case ExitFailed => a := TgExit;
  }

  /** A live spawner that waits for nobody moves. */
  lemma SpawnerMoves(s: System, ok: bool) returns (a: Action)
    requires SpawnerAlive(s) && !s.sp.Suspended? && !s.sp.RecvAttached? && (ok ==> SupervisorSideOpen(s))
    ensures Can(s, a) && Unaided(s, a) && (ok ==> Smooth(a)) && BySpawner(a)
  {
    match s.sp
    case Prepare(prep) =>
      a := if prep.CloseFds? then SpCloseFds(true) else if prep.Clone? then SpClone(true) else SpSetStream(true);
    case Check(check) =>
      a := match check
        case StorePid => SpStorePid
        case CheckFailed => SpCheckFailed
        case CheckCreated => SpCheckCreated
        case LoadListener => SpLoadListener
        case SendReady => SpSendReady(ok);
    case SendListener => a := SpSendListener(ok);
    case StoreSpawned => a := SpStoreSpawned;
    case Record(_, _) => a := SpRecord;
    case KillIt => a := SpKill;
    case PublishDone(_) => a := SpPublishDone;
    case Exit(_) => a := SpExit;
  }

  /** A live spawner moves, or waits for the target, or for the supervisor, which then moves. */
  lemma SpawnerSideMoves(s: System) returns (a: Action)
    requires Inv(s) && SpawnerAlive(s)
    ensures Can(s, a) && Unaided(s, a)
  {
    if s.sp.Suspended? {
      if s.tg.Launching? { a := TargetMoves(s); } else { a := SpResume; }
    } else if s.sp.RecvAttached? {
      a := HandshakeMoves(s);
    } else {
      a := SpawnerMoves(s, false);
    }
  }

  lemma HandshakeMoves(s: System) returns (a: Action)
    requires Inv(s) && s.sp.RecvAttached?
    ensures Can(s, a) && Unaided(s, a)
  {
    if s.net.toSp != [] { return SpRecvAttached(true); }
    if !s.net.supEnd { return SpRecvAttached(false); }
    match s.sup.pc
    case DropSpare => a := SupDropSpare;
    case RecvReady => a := SupRecvReady(true);
    case LoadPid => a := SupLoadPid;
    case Seize => a := SupSeize(false);
    case SendAttached => a := SupSendAttached(false);
    case DropSocket => a := SupDropSocket;
  }

  /** With the spawner gone, the supervisor moves, or a target it still waits for does. */
  lemma OthersMove(s: System) returns (a: Action)
    requires Inv(s) && !SpawnerAlive(s) && !s.sup.pc.Returned?
    ensures Can(s, a) && Unaided(s, a)
  {
    match s.sup.pc
    case DropSpare => a := SupDropSpare;
    case RecvReady =>
      if s.net.toSup != [] { a := SupRecvReady(true); }
      else if s.tg.Launching? { a := TargetMoves(s); }
      else { a := SupRecvReady(false); }
    case LoadPid => a := SupLoadPid;
    case Seize => a := SupSeize(false);
    case SendAttached => a := SupSendAttached(false);
    case RecvListener =>
      if s.net.toSup != [] { a := SupRecvListener(true); }
      else if s.tg.Launching? { a := TargetMoves(s); }
      else { a := SupRecvListener(false); }
    case DropSocket => a := SupDropSocket;
    case WaitSpawner => a := SupWait(true);
    case Judge => a := SupJudge;
    case PollTarget => a := SupPoll(if s.shared.targetPid > 0 && s.tg.Dead? then Gone else Alive);
    case KillTarget => a := SupKill;
    case ReapTarget => a := if s.tg.Dead? then SupReap(Gone) else TgDie;
  }

  lemma StepShrinks(states: seq<System>, actions: seq<Action>, k: nat)
    requires IsExecution(states, actions) && k < |actions|
    ensures Work(states[k + 1]) < Work(states[k])
  {
    ExecutionInv(states, actions, k);
    assert StepAt(states, actions, k);
    Advance(states[k], actions[k]);
  }

  lemma {:induction false} WorkUsed(states: seq<System>, actions: seq<Action>, k: nat)
    requires IsExecution(states, actions) && k < |states|
    ensures k + Work(states[k]) <= Work(states[0])
    decreases k
  {
    if k > 0 {
      WorkUsed(states, actions, k - 1);
      StepShrinks(states, actions, k - 1);
    }
  }

  /** No execution is longer than the work there is to do; with `NeverStuck`, every execution that
      cannot be continued ends with the supervisor returning. */
  lemma ExecutionsEnd(states: seq<System>, actions: seq<Action>)
    requires IsExecution(states, actions)
    ensures |actions| <= 42
  {
    WorkUsed(states, actions, |actions|);
  }
}
