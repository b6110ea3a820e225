/**
 The advisory hardware lock of scripts/hardware-lock-supervisor.py as a transition system: any number
 of supervisors, the children that inherit a locked descriptor, processes that verify their lease, and
 unrelated processes that may reuse a pid. Steps interleave freely and any process may die at any step.
 A lock belongs to an open-file description; the kernel drops it with the description's last holder.
 */
module LockModel {
  import opened Wrappers

  type Pid = nat
  // A session is one supervisor's run: its open-file description, and the token it writes.
  type Session = nat

  datatype Owner = Owner(pid: Pid, birth: Option<nat>, boot: Option<nat>, token: Session)

  /** Where a supervisor stands in run. */
  datatype SupervisorPoint =
    | Opened
    | Locked
    | Owned
    | Running(child: Pid, childBirth: nat)
    | Cleaning
    | Unlinking(matches: bool)
    | Closing

  /**
   What the descriptor handed to verify_inherited_lock refers to: the open-file description of a session,
   the lock file through a description that no session made, or something else.
   */
  datatype Descriptor = Inherited(session: Session) | Outside | NotLockFile

  datatype VerifyPoint =
    | CheckDescriptor
    | ReadRecord
    | CheckAlive(record: Owner)
    | CheckBirth(record: Owner)
    | Probe(record: Owner)
    | Release
    | Answered(accepted: Option<Owner>)

  datatype Role =
    | Supervisor(session: Session, at: SupervisorPoint)
    | Member(session: Session)  // a hardware child, or a process it started, that keeps the descriptor
    | Verifier(descriptor: Descriptor, token: Option<Session>, point: VerifyPoint)
    | Unrelated

  datatype Process = Process(birth: nat, role: Role)
  {
    predicate Holds(s: Session) {
      match role
      case Supervisor(session, _) => session == s
      case Member(session) => session == s
      case Verifier(descriptor, _, _) => descriptor == Inherited(s)
      case Unrelated => false
    }
  }

  datatype Holder = OfSession(session: Session) | OfProbe(pid: Pid)

  datatype Host = Host(
    alive: map<Pid, Process>,
    births: set<(Pid, nat)>,  // every process that has ever run, by pid and birth
    lock: Option<Holder>,
    owner: Option<Owner>,
    issued: set<Session>,
    boot: nat)
  {
    predicate HasHolder(s: Session) {
      exists pid :: pid in alive && alive[pid].Holds(s)
    }

    /** The process of this pid and birth is running. */
    predicate Lives(pid: Pid, birth: nat) {
      pid in alive && alive[pid].birth == birth
    }

    predicate IsSupervisor(pid: Pid) {
      pid in alive && alive[pid].role.Supervisor?
    }

    predicate IsVerifier(pid: Pid) {
      pid in alive && alive[pid].role.Verifier?
    }

    function Become(pid: Pid, role: Role): Host
      requires pid in alive
    {
      this.(alive := alive[pid := alive[pid].(role := role)])
    }

    predicate Fresh(pid: Pid, birth: nat) {
      pid !in alive && (pid, birth) !in births
    }

    function Start(pid: Pid, birth: nat, role: Role): Host {
      this.(alive := alive[pid := Process(birth, role)], births := births + {(pid, birth)})
    }

    /** The process ends and the kernel closes its descriptors. */
    function Exit(pid: Pid): Host {
      var rest := this.(alive := alive - {pid});
      match lock
      case Some(OfSession(s)) => if rest.HasHolder(s) then rest else rest.(lock := None)
      case Some(OfProbe(p)) => if p == pid then rest.(lock := None) else rest
      case None => rest
    }
  }

  datatype Event =
    | Open(pid: Pid, birth: nat, session: Session)
    | TryLock(pid: Pid)
    | WriteOwner(pid: Pid, birthRead: bool, bootRead: bool)
    | Spawn(pid: Pid, child: Pid, birth: nat)
    | NoCommand(pid: Pid)
    | ChildEnded(pid: Pid)
    | ReadOwner(pid: Pid)
    | Unlink(pid: Pid)
    | Fork(pid: Pid, child: Pid, birth: nat)
    | Other(pid: Pid, birth: nat)
    | AskInherited(pid: Pid, parent: Pid, birth: nat, token: Option<Session>)
    | AskOutside(pid: Pid, birth: nat, lockFile: bool, token: Option<Session>)
    | Verify(pid: Pid, textRead: bool)  // the next step of a verifier; reading ps or sysctl may fail
    | Die(pid: Pid)
    | Reboot

  function SupervisorStep(h: Host, e: Event): Host
    requires !e.Reboot? && h.IsSupervisor(e.pid)
  {
    var pid := e.pid;
    var s, at := h.alive[pid].role.session, h.alive[pid].role.at;
    match e
    case TryLock(_) =>
      if at != Opened then h
      else if h.lock.Some? then h.Exit(pid)  // busy: report and leave
      else h.(lock := Some(OfSession(s))).Become(pid, Supervisor(s, Locked))
    case WriteOwner(_, birthRead, bootRead) =>
      if at != Locked then h
      else
        var birth := if birthRead then Some(h.alive[pid].birth) else None;
        var boot := if bootRead then Some(h.boot) else None;
        h.(owner := Some(Owner(pid, birth, boot, s))).Become(pid, Supervisor(s, Owned))
    case Spawn(_, child, birth) =>
      if at == Owned && h.Fresh(child, birth)
      then h.Become(pid, Supervisor(s, Running(child, birth))).Start(child, birth, Member(s))
      else h
    case NoCommand(_) => if at == Owned then h.Become(pid, Supervisor(s, Cleaning)) else h
    case ChildEnded(_) =>
      if at.Running? && !h.Lives(at.child, at.childBirth) then h.Become(pid, Supervisor(s, Cleaning)) else h
    case ReadOwner(_) =>
      if at != Cleaning then h
      else h.Become(pid, Supervisor(s, Unlinking(h.owner.Some? && h.owner.value.token == s)))
    case Unlink(_) =>
      if !at.Unlinking? then h
      else (if at.matches then h.(owner := None) else h).Become(pid, Supervisor(s, Closing))
    case _ => h
  }

  function VerifyStep(h: Host, pid: Pid, textRead: bool): Host
    requires h.IsVerifier(pid)
  {
    var role := h.alive[pid].role;
    var descriptor, token := role.descriptor, role.token;
    match role.point
    case CheckDescriptor =>
      h.Become(pid, Verifier(descriptor, token,
        if token.None? || descriptor.NotLockFile? then Answered(None) else ReadRecord))
    case ReadRecord =>
      var boot := if textRead then Some(h.boot) else None;
      var ok := h.owner.Some? && Some(h.owner.value.token) == token && h.owner.value.boot == boot;
      h.Become(pid, Verifier(descriptor, token, if ok then CheckAlive(h.owner.value) else Answered(None)))
    case CheckAlive(o) =>
      h.Become(pid, Verifier(descriptor, token, if o.pid in h.alive then CheckBirth(o) else Answered(None)))
    case CheckBirth(o) =>
      var same := o.birth.Some? && textRead && h.Lives(o.pid, o.birth.value);
      h.Become(pid, Verifier(descriptor, token, if same then Probe(o) else Answered(None)))
    case Probe(o) =>
      if h.lock.Some? then h.Become(pid, Verifier(descriptor, token, Answered(Some(o))))
      else h.(lock := Some(OfProbe(pid))).Become(pid, Verifier(descriptor, token, Release))
    case Release => h.(lock := None).Become(pid, Verifier(descriptor, token, Answered(None)))
    case Answered(_) => h
  }

  function Step(h: Host, e: Event): Host {
    match e
    case Open(pid, birth, s) =>
      if h.Fresh(pid, birth) && s !in h.issued
      then h.Start(pid, birth, Supervisor(s, Opened)).(issued := h.issued + {s})
      else h
    case Other(pid, birth) => if h.Fresh(pid, birth) then h.Start(pid, birth, Unrelated) else h
    case Fork(pid, child, birth) =>
      if pid in h.alive && h.alive[pid].role.Member? && h.Fresh(child, birth)
      then h.Start(child, birth, h.alive[pid].role)
      else h
    case AskInherited(pid, parent, birth, token) =>
      if parent in h.alive && h.alive[parent].role.Member? && h.Fresh(pid, birth)
      then h.Start(pid, birth, Verifier(Inherited(h.alive[parent].role.session), token, CheckDescriptor))
      else h
    case AskOutside(pid, birth, lockFile, token) =>
      if h.Fresh(pid, birth)
      then h.Start(pid, birth, Verifier(if lockFile then Outside else NotLockFile, token, CheckDescriptor))
      else h
    case Verify(pid, textRead) => if h.IsVerifier(pid) then VerifyStep(h, pid, textRead) else h
    case Die(pid) => if pid in h.alive then h.Exit(pid) else h
    case Reboot => h.(alive := map[], lock := None, boot := h.boot + 1)
    case _ => if h.IsSupervisor(e.pid) then SupervisorStep(h, e) else h
  }

  function Run(h: Host, events: seq<Event>): Host
    decreases |events|
  {
    if events == [] then h else Step(Run(h, events[..|events| - 1]), events[|events| - 1])
  }

  ghost predicate LeftOver(h: Host, o: Owner) {
    && o.token in h.issued
    && (o.birth.Some? ==> (o.pid, o.birth.value) in h.births && !h.Lives(o.pid, o.birth.value))
  }

  /** No process of ours runs yet; an owner file may be left by a supervisor that has ended. */
  ghost predicate Initial(h: Host) {
    && (forall pid :: pid in h.alive ==> h.alive[pid].role.Unrelated? && (pid, h.alive[pid].birth) in h.births)
    && h.lock.None?
    && (h.owner.Some? ==> LeftOver(h, h.owner.value))
  }
}
