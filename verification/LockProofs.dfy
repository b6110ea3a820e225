/** What every reachable state of the hardware lock satisfies. */
module LockProofs {
  import opened Wrappers
  import opened LockModel

  ghost predicate Supervises(h: Host, pid: Pid, s: Session) {
    h.IsSupervisor(pid) && h.alive[pid].role.session == s
  }

  /** The recorded pid and birth name a process that has run; if it runs still, it is the supervisor of that token. */
  ghost predicate Names(h: Host, o: Owner) {
    && o.token in h.issued
    && (o.birth.Some? ==>
          && (o.pid, o.birth.value) in h.births
          && (h.Lives(o.pid, o.birth.value) ==> Supervises(h, o.pid, o.token)))
  }

  /** The owner record, when there is one, belongs to session s. */
  ghost predicate OwnerIs(h: Host, s: Session) {
    h.owner.Some? ==> h.owner.value.token == s
  }

  /** The owner record is the one the supervisor pid of session s wrote. */
  ghost predicate OwnRecord(h: Host, pid: Pid, s: Session)
    requires pid in h.alive
  {
    && h.owner.Some?
    && h.owner.value.token == s
    && h.owner.value.pid == pid
    && (h.owner.value.birth.Some? ==> h.owner.value.birth.value == h.alive[pid].birth)
  }

  ghost predicate SupervisorFits(h: Host, pid: Pid, s: Session, at: SupervisorPoint)
    requires pid in h.alive
  {
    && s in h.issued
    && (at.Opened? <==> h.lock != Some(OfSession(s)))
    && (at.Owned? || at.Running? || at.Cleaning? || at.Unlinking? ==> OwnRecord(h, pid, s))
    && (at.Closing? ==> h.owner.None?)
    && (at.Unlinking? ==> at.matches)
  }

  /** The record a verifier carries between its checks. */
  function Carried(point: VerifyPoint): Option<Owner> {
    match point
    case CheckAlive(o) => Some(o)
    case CheckBirth(o) => Some(o)
    case Probe(o) => Some(o)
    case Answered(o) => o
    case _ => None
  }

  ghost predicate VerifierFits(h: Host, pid: Pid, d: Descriptor, token: Option<Session>, point: VerifyPoint) {
    && (d.Inherited? ==> h.lock == Some(OfSession(d.session)) && OwnerIs(h, d.session))
    && (d.NotLockFile? ==> point.CheckDescriptor? || point == Answered(None))
    && (point.Release? ==> h.lock == Some(OfProbe(pid)))
    && (Carried(point).Some? ==>
          && Names(h, Carried(point).value)
          && token == Some(Carried(point).value.token)
          && (d.Inherited? ==> Carried(point).value.token == d.session))
  }

  ghost predicate Fits(h: Host, pid: Pid)
    requires pid in h.alive
  {
    && (pid, h.alive[pid].birth) in h.births
    && match h.alive[pid].role
       case Supervisor(s, at) => SupervisorFits(h, pid, s, at)
       case Member(s) => h.lock == Some(OfSession(s)) && OwnerIs(h, s)
       case Verifier(d, token, point) => VerifierFits(h, pid, d, token, point)
       case Unrelated => true
  }

  /** The lock belongs to a session with a live process that keeps its descriptor, or to a probe being released. */
  ghost predicate LockFits(h: Host) {
    match h.lock
    case None => true
    case Some(OfSession(s)) => h.HasHolder(s) && s in h.issued
    case Some(OfProbe(pid)) => h.IsVerifier(pid) && h.alive[pid].role.point.Release?
  }

  ghost predicate OneSupervisorEach(h: Host) {
    forall p, q :: h.IsSupervisor(p) && h.IsSupervisor(q) && h.alive[p].role.session == h.alive[q].role.session
                   ==> p == q
  }

  ghost predicate Inv(h: Host) {
    && (forall pid :: pid in h.alive ==> Fits(h, pid))
    && LockFits(h)
    && OneSupervisorEach(h)
    && (h.owner.Some? ==> Names(h, h.owner.value))
  }

  lemma InitialInv(h: Host)
    requires Initial(h)
    ensures Inv(h)
  {
  }

  /** What names a process correctly goes on doing so. */
  ghost predicate NamesKept(h: Host, g: Host) {
    forall o :: Names(h, o) ==> Names(g, o)
  }

  /** A process that is not touched goes on fitting when lock and owner record stay. */
  lemma FitsCarriesOver(h: Host, g: Host, pid: Pid)
    requires pid in h.alive && pid in g.alive && g.alive[pid] == h.alive[pid] && Fits(h, pid)
    requires g.lock == h.lock && g.owner == h.owner && h.births <= g.births && h.issued <= g.issued
    requires NamesKept(h, g)
    ensures Fits(g, pid)
  {
    if h.alive[pid].role.Verifier? && Carried(h.alive[pid].role.point).Some? {
      assert Names(h, Carried(h.alive[pid].role.point).value);
      hide Names;
    }
  }

  lemma StartedIsNoSecond(h: Host, pid: Pid, birth: nat, role: Role)
    requires Inv(h) && h.Fresh(pid, birth)
    requires role.Supervisor? ==> role.session !in h.issued
    ensures OneSupervisorEach(h.Start(pid, birth, role))
  {
    hide Names, VerifierFits, LockFits;
    var g := h.Start(pid, birth, role);
    forall p | h.IsSupervisor(p) ensures h.alive[p].role.session in h.issued { assert Fits(h, p); }
  }

  lemma StartKeepsInv(h: Host, pid: Pid, birth: nat, role: Role)
    requires Inv(h) && h.Fresh(pid, birth)
    requires role.Supervisor? ==> role.session !in h.issued && role.at.Opened?
    requires role.Member? ==> h.lock == Some(OfSession(role.session)) && OwnerIs(h, role.session)
    requires role.Verifier? ==> role.point.CheckDescriptor?
    requires role.Verifier? && role.descriptor.Inherited? ==>
               h.lock == Some(OfSession(role.descriptor.session)) && OwnerIs(h, role.descriptor.session)
    ensures Inv(h.Start(pid, birth, role).(issued := if role.Supervisor? then h.issued + {role.session} else h.issued))
  {
    var g := h.Start(pid, birth, role).(issued := if role.Supervisor? then h.issued + {role.session} else h.issued);
    assert NamesKept(h, g);
    if h.lock.Some? && h.lock.value.OfSession? {
      var p :| p in h.alive && h.alive[p].Holds(h.lock.value.session);
      assert p in g.alive && g.alive[p].Holds(h.lock.value.session);
    }
    assert Fits(g, pid);
    assert OneSupervisorEach(g) by { StartedIsNoSecond(h, pid, birth, role); }
    hide Names, SupervisorFits, VerifierFits;
    forall p | p in g.alive ensures Fits(g, p) {
      if p != pid { FitsCarriesOver(h, g, p); }
    }
  }

  lemma ExitKeepsInv(h: Host, pid: Pid)
    requires Inv(h) && pid in h.alive
    ensures Inv(h.Exit(pid))
  {
    var g := h.Exit(pid);
    assert forall o :: Names(h, o) ==> Names(g, o);
    forall p | p in g.alive ensures Fits(g, p) {
      assert Fits(h, p);
      assert g.alive[p] == h.alive[p];
      if g.lock != h.lock && h.lock.value.OfSession? {
        assert !g.alive[p].Holds(h.lock.value.session);
      }
    }
  }

  lemma LockingKeepsInv(h: Host, pid: Pid)
    requires Inv(h) && h.IsSupervisor(pid) && h.alive[pid].role.at.Opened? && h.lock.None?
    ensures Inv(SupervisorStep(h, TryLock(pid)))
  {
    var g := SupervisorStep(h, TryLock(pid));
    assert Fits(h, pid);
    assert forall o :: Names(h, o) ==> Names(g, o);
    assert g.alive[pid].Holds(h.alive[pid].role.session);
    forall p | p in g.alive ensures Fits(g, p) { assert Fits(h, p); }
  }

  lemma HoldingStepKeepsInv(h: Host, e: Event)
    requires e.WriteOwner? || e.NoCommand? || e.ChildEnded? || e.ReadOwner? || e.Unlink?
    requires Inv(h) && h.IsSupervisor(e.pid)
    ensures Inv(SupervisorStep(h, e))
  {
    var g := SupervisorStep(h, e);
    if g != h {
      assert Fits(h, e.pid);
      assert forall o :: Names(h, o) ==> Names(g, o);
      assert g.alive[e.pid].Holds(g.alive[e.pid].role.session);
      forall p | p in g.alive ensures Fits(g, p) { assert Fits(h, p); }
    }
  }

  lemma SpawnKeepsInv(h: Host, e: Event)
    requires Inv(h) && e.Spawn? && h.IsSupervisor(e.pid)
    ensures Inv(SupervisorStep(h, e))
  {
    var pid := e.pid;
    var s, at := h.alive[pid].role.session, h.alive[pid].role.at;
    if at == Owned && h.Fresh(e.child, e.birth) {
      var g := h.Become(pid, Supervisor(s, Running(e.child, e.birth)));
      assert forall o :: Names(h, o) ==> Names(g, o);
      assert Fits(h, pid);
      assert g.alive[pid].Holds(s);
      forall p | p in g.alive ensures Fits(g, p) { assert Fits(h, p); }
      StartKeepsInv(g, e.child, e.birth, Member(s));
    }
  }

  lemma AdvanceKeepsInv(h: Host, pid: Pid, point: VerifyPoint, lock: Option<Holder>)
    requires Inv(h) && h.IsVerifier(pid)
    requires lock != h.lock ==>
               && (lock.None? || lock == Some(OfProbe(pid)))
               && (h.lock.None? || h.lock == Some(OfProbe(pid)))
    requires lock == Some(OfProbe(pid)) <==> point.Release?
    requires Carried(point).Some? ==> Names(h, Carried(point).value)
    requires VerifierFits(h.(lock := lock), pid, h.alive[pid].role.descriptor, h.alive[pid].role.token, point)
    ensures Inv(h.(lock := lock).Become(pid, h.alive[pid].role.(point := point)))
  {
    var g := h.(lock := lock).Become(pid, h.alive[pid].role.(point := point));
    assert forall o :: Names(h, o) ==> Names(g, o);
    if g.lock.Some? && g.lock.value.OfSession? {
      var p :| p in h.alive && h.alive[p].Holds(h.lock.value.session);
      assert p in g.alive && g.alive[p].Holds(h.lock.value.session);
    }
    forall p | p in g.alive ensures Fits(g, p) { assert Fits(h, p); }
  }

  lemma VerifyStepKeepsInv(h: Host, pid: Pid, textRead: bool)
    requires Inv(h) && h.IsVerifier(pid)
    ensures Inv(VerifyStep(h, pid, textRead))
  {
    var g := VerifyStep(h, pid, textRead);
    assert Fits(h, pid);
    if !h.alive[pid].role.point.Answered? {
      AdvanceKeepsInv(h, pid, g.alive[pid].role.point, g.lock);
    }
  }

  lemma StepKeepsInv(h: Host, e: Event)
    requires Inv(h)
    ensures Inv(Step(h, e))
  {
    match e
    case Open(pid, birth, s) =>
      if h.Fresh(pid, birth) && s !in h.issued { StartKeepsInv(h, pid, birth, Supervisor(s, Opened)); }
    case Other(pid, birth) => if h.Fresh(pid, birth) { StartKeepsInv(h, pid, birth, Unrelated); }
    case Fork(pid, child, birth) =>
      if pid in h.alive && h.alive[pid].role.Member? && h.Fresh(child, birth) {
        assert Fits(h, pid);
        StartKeepsInv(h, child, birth, h.alive[pid].role);
      }
    case AskInherited(pid, parent, birth, token) =>
      if parent in h.alive && h.alive[parent].role.Member? && h.Fresh(pid, birth) {
        assert Fits(h, parent);
        StartKeepsInv(h, pid, birth, Verifier(Inherited(h.alive[parent].role.session), token, CheckDescriptor));
      }
    case AskOutside(pid, birth, lockFile, token) =>
      if h.Fresh(pid, birth) {
        StartKeepsInv(h, pid, birth, Verifier(if lockFile then Outside else NotLockFile, token, CheckDescriptor));
      }
    case Verify(pid, textRead) => if h.IsVerifier(pid) { VerifyStepKeepsInv(h, pid, textRead); }
    case Die(pid) => if pid in h.alive { ExitKeepsInv(h, pid); }
    case Reboot =>
    case Spawn(pid, _, _) => if h.IsSupervisor(pid) { SpawnKeepsInv(h, e); }
    case TryLock(pid) =>
      if h.IsSupervisor(pid) && h.alive[pid].role.at.Opened? {
        if h.lock.Some? { ExitKeepsInv(h, pid); } else { LockingKeepsInv(h, pid); }
      }
    case _ => if h.IsSupervisor(e.pid) { HoldingStepKeepsInv(h, e); }
  }

  lemma {:induction false} RunKeepsInv(h: Host, events: seq<Event>)
    requires Inv(h)
    ensures Inv(Run(h, events))
    decreases |events|
  {
    if events == [] {
    } else {
      RunKeepsInv(h, events[..|events| - 1]);
      StepKeepsInv(Run(h, events[..|events| - 1]), events[|events| - 1]);
    }
  }
}
