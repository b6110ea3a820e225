/** What the hardware lock guarantees over every interleaving, with processes dying at any step. */
module LockTheorems {
  import opened Wrappers
  import opened LockModel
  import opened LockProofs

  // ---- Mutual exclusion

  /** This process keeps the lock from being taken: it works under a session, or its probe is not yet released. */
  ghost predicate Blocks(p: Process) {
    match p.role
    case Supervisor(_, at) => !at.Opened?
    case Member(_) => true
    case Verifier(d, _, point) => d.Inherited? || point.Release?
    case Unrelated => false
  }

  /** This process keeps the descriptor of session s and with it the lock. */
  ghost predicate Works(h: Host, pid: Pid, s: Session) {
    pid in h.alive && h.alive[pid].Holds(s) && Blocks(h.alive[pid])
  }

  lemma WorkerHoldsLock(h: Host, pid: Pid, s: Session)
    requires Inv(h) && Works(h, pid, s)
    ensures h.lock == Some(OfSession(s))
    ensures !h.IsSupervisor(pid) ==> OwnerIs(h, s)
  {
    assert Fits(h, pid);
  }

  /**
   Whatever happened before, live hardware processes, their verifiers and supervisors past locking all
   belong to one session, the one that holds the lock; any owner record one of its hardware processes can
   see is its own.
   */
  lemma {:induction false} MutualExclusion(h: Host, events: seq<Event>)
    requires Initial(h)
    ensures var g := Run(h, events);
      forall p, q, s, t :: Works(g, p, s) && Works(g, q, t) ==>
        s == t && g.lock == Some(OfSession(s)) && (g.IsSupervisor(p) || OwnerIs(g, s))
  {
    InitialInv(h);
    RunKeepsInv(h, events);
    var g := Run(h, events);
    forall p, s | Works(g, p, s)
      ensures g.lock == Some(OfSession(s)) && (g.IsSupervisor(p) || OwnerIs(g, s))
    {
      WorkerHoldsLock(g, p, s);
    }
  }

  /** The lock is taken exactly while some live process blocks it, so no death can leave it stuck. */
  lemma {:induction false} LockedIffBlocked(h: Host, events: seq<Event>)
    requires Initial(h)
    ensures var g := Run(h, events);
      g.lock.Some? <==> exists p :: p in g.alive && Blocks(g.alive[p])
  {
    InitialInv(h);
    RunKeepsInv(h, events);
    var g := Run(h, events);
    assert forall p :: p in g.alive ==> Fits(g, p);
    if g.lock.Some? {
      match g.lock.value {
        case OfSession(s) =>
          var p :| p in g.alive && g.alive[p].Holds(s);
          assert Blocks(g.alive[p]);
        case OfProbe(p) =>
          assert Blocks(g.alive[p]);
      }
    }
  }

  /** A supervisor that has just opened the file gets the lock exactly when no live process blocks it. */
  lemma {:induction false} AcquiresIffUnblocked(h: Host, events: seq<Event>, pid: Pid)
    requires Initial(h)
    requires Run(h, events).IsSupervisor(pid) && Run(h, events).alive[pid].role.at.Opened?
    ensures var g := Run(h, events);
      var next := Step(g, TryLock(pid));
      if forall p :: p in g.alive ==> !Blocks(g.alive[p])
      then next.lock == Some(OfSession(g.alive[pid].role.session)) && next.IsSupervisor(pid)
      else next.lock == g.lock && pid !in next.alive
  {
    LockedIffBlocked(h, events);
    InitialInv(h);
    RunKeepsInv(h, events);
    var g := Run(h, events);
    assert Fits(g, pid);
    if g.lock.Some? && g.lock.value.OfSession? {
      var p :| p in g.alive && g.alive[p].Holds(g.lock.value.session);
      assert p != pid;
      var rest := g.(alive := g.alive - {pid});
      assert p in rest.alive && rest.alive[p].Holds(g.lock.value.session);
    }
  }

  // ---- The owner record

  lemma OwnerChangedBy(h: Host, e: Event)
    requires Inv(h) && Step(h, e).owner != h.owner
    ensures e.WriteOwner? || e.Unlink?
    ensures h.IsSupervisor(e.pid) && h.lock == Some(OfSession(h.alive[e.pid].role.session))
    ensures e.WriteOwner? ==> h.alive[e.pid].role.at.Locked?
    ensures e.Unlink? ==> Step(h, e).alive[e.pid].role.at.Closing? && OwnRecord(h, e.pid, h.alive[e.pid].role.session)
  {
    if e.WriteOwner? || e.Unlink? { assert Fits(h, e.pid); }
  }

  /**
   The owner record changes only when the supervisor of the session that holds the lock writes it, or
   removes the record it wrote itself.
   */
  lemma {:induction false} OnlyHolderChangesRecord(h: Host, events: seq<Event>, e: Event)
    requires Initial(h)
    requires Step(Run(h, events), e).owner != Run(h, events).owner
    ensures var g := Run(h, events);
      && (e.WriteOwner? || e.Unlink?)
      && g.IsSupervisor(e.pid)
      && g.lock == Some(OfSession(g.alive[e.pid].role.session))
      && (e.Unlink? ==> OwnRecord(g, e.pid, g.alive[e.pid].role.session))
  {
    InitialInv(h);
    RunKeepsInv(h, events);
    OwnerChangedBy(Run(h, events), e);
  }

  ghost predicate AtRun(h: Host, pid: Pid, s: Session) {
    Supervises(h, pid, s) && h.alive[pid].role.at.Running?
  }

  /** Where the record of a session that has once run a child can stand. */
  ghost predicate RecordKept(h: Host, pid: Pid, s: Session, o: Owner) {
    && s in h.issued
    && (Supervises(h, pid, s) ==>
          && !h.alive[pid].role.at.Opened? && !h.alive[pid].role.at.Locked? && !h.alive[pid].role.at.Owned?
          && (h.alive[pid].role.at.Closing? || h.owner == Some(o)))
  }

  lemma StepKeepsRecord(h: Host, pid: Pid, s: Session, o: Owner, e: Event)
    requires Inv(h) && RecordKept(h, pid, s, o)
    ensures RecordKept(Step(h, e), pid, s, o)
  {
    hide Names, VerifierFits, LockFits;
    var g := Step(h, e);
    if Supervises(g, pid, s) {
      assert Supervises(h, pid, s);
      assert Fits(h, pid);
      if h.owner != g.owner { OwnerChangedBy(h, e); }
    }
  }

  lemma {:induction false} RunKeepsRecord(h: Host, pid: Pid, s: Session, o: Owner, events: seq<Event>)
    requires Inv(h) && RecordKept(h, pid, s, o)
    ensures RecordKept(Run(h, events), pid, s, o)
    decreases |events|
  {
    if events == [] {
    } else {
      RunKeepsRecord(h, pid, s, o, events[..|events| - 1]);
      RunKeepsInv(h, events[..|events| - 1]);
      StepKeepsRecord(Run(h, events[..|events| - 1]), pid, s, o, events[|events| - 1]);
    }
  }

  /** While a supervisor waits for its child, no other process overwrites or removes its owner record. */
  lemma {:induction false} LiveRecordIsKept(h: Host, before: seq<Event>, pid: Pid, s: Session, after: seq<Event>)
    requires Initial(h)
    requires AtRun(Run(h, before), pid, s)
    requires AtRun(Run(Run(h, before), after), pid, s)
    ensures var g := Run(h, before);
      OwnRecord(g, pid, s) && Run(g, after).owner == g.owner
  {
    InitialInv(h);
    RunKeepsInv(h, before);
    var g := Run(h, before);
    assert Fits(g, pid);
    RunKeepsRecord(g, pid, s, g.owner.value, after);
  }

  lemma {:induction false} RunFrom(h: Host, first: seq<Event>, rest: seq<Event>)
    ensures Run(h, first + rest) == Run(Run(h, first), rest)
    decreases |rest|
  {
    if rest == [] {
      assert first + rest == first;
    } else {
      assert (first + rest)[..|first + rest| - 1] == first + rest[..|rest| - 1];
      RunFrom(h, first, rest[..|rest| - 1]);
    }
  }

  /** How far a supervisor has come. */
  function Rank(at: SupervisorPoint): nat {
    match at
    case Opened => 0
    case Locked => 1
    case Owned => 2
    case Running(_, _) => 3
    case Cleaning => 4
    case Unlinking(_) => 5
    case Closing => 6
  }

  /** The supervisor of session s runs and has come this far. */
  ghost predicate Reached(h: Host, pid: Pid, s: Session, rank: nat) {
    Supervises(h, pid, s) && Rank(h.alive[pid].role.at) >= rank
  }

  /** The host stays up and nobody kills this process. */
  ghost predicate Spared(events: seq<Event>, pid: Pid) {
    forall i :: 0 <= i < |events| ==> events[i] != Die(pid) && !events[i].Reboot?
  }

  lemma StepKeepsReached(h: Host, e: Event, pid: Pid, s: Session, rank: nat)
    requires Inv(h) && Reached(h, pid, s, rank) && rank > 0 && e != Die(pid) && !e.Reboot?
    ensures Reached(Step(h, e), pid, s, rank)
  {
    hide Inv;
  }

  lemma {:induction false} RunKeepsReached(h: Host, events: seq<Event>, pid: Pid, s: Session, rank: nat)
    requires Inv(h) && Reached(h, pid, s, rank) && rank > 0 && Spared(events, pid)
    ensures Reached(Run(h, events), pid, s, rank)
    decreases |events|
  {
    hide Step, Inv, Reached;
    if events == [] {
    } else {
      RunKeepsReached(h, events[..|events| - 1], pid, s, rank);
      RunKeepsInv(h, events[..|events| - 1]);
      StepKeepsReached(Run(h, events[..|events| - 1]), events[|events| - 1], pid, s, rank);
    }
  }

  /** The supervisor finds its child ended, or had no command to run. */
  ghost predicate Finishes(h: Host, e: Event, pid: Pid, s: Session) {
    && Supervises(h, pid, s)
    && match h.alive[pid].role.at
       case Running(child, childBirth) => e == ChildEnded(pid) && !h.Lives(child, childBirth)
       case Owned => e == NoCommand(pid)
       case _ => false
  }

  /** The three steps of the cleanup, each from where the one before it led. */
  lemma CleanupAdvances(h: Host, e: Event, pid: Pid, s: Session)
    requires Inv(h)
    ensures Finishes(h, e, pid, s) ==> Reached(Step(h, e), pid, s, 4)
    ensures Reached(h, pid, s, 4) && e == ReadOwner(pid) ==> Reached(Step(h, e), pid, s, 5)
    ensures Reached(h, pid, s, 5) && e == Unlink(pid) ==> Reached(Step(h, e), pid, s, 6)
  {
    hide Inv;
  }

  lemma {:induction false} RunSplits(h: Host, events: seq<Event>, i: nat)
    requires i < |events|
    ensures Run(h, events[..i + 1]) == Step(Run(h, events[..i]), events[i])
  {
    assert events[..i + 1][..i] == events[..i];
  }

  lemma {:induction false} ReachedLater(h: Host, events: seq<Event>, i: nat, j: nat, pid: Pid, s: Session, rank: nat)
    requires Inv(h) && i <= j <= |events| && rank > 0 && Spared(events[i..], pid)
    requires Reached(Run(h, events[..i]), pid, s, rank)
    ensures Reached(Run(h, events[..j]), pid, s, rank)
  {
    hide Step, Inv, Reached;
    assert events[..j] == events[..i] + events[i..j];
    RunKeepsInv(h, events[..i]);
    RunFrom(h, events[..i], events[i..j]);
    assert forall k :: 0 <= k < |events[i..j]| ==> events[i..j][k] == events[i..][k];
    RunKeepsReached(Run(h, events[..i]), events[i..j], pid, s, rank);
  }

  lemma SparedLater(events: seq<Event>, i: nat, j: nat, pid: Pid)
    requires i <= j <= |events| && Spared(events[i..], pid)
    ensures Spared(events[j..], pid)
  {
    forall k | 0 <= k < |events[j..]| ensures events[j..][k] != Die(pid) && !events[j..][k].Reboot? {
      assert events[j..][k] == events[i..][k + j - i];
    }
  }

  lemma ClosingHasNoRecord(h: Host, pid: Pid, s: Session)
    requires Inv(h) && Reached(h, pid, s, 6)
    ensures Supervises(h, pid, s) && h.alive[pid].role.at.Closing? && h.owner.None? && h.lock == Some(OfSession(s))
  {
    assert Fits(h, pid);
  }

  /**
   A session that is done leaves no record. Once its child has ended, or there was no command, and the
   supervisor has gone through the steps of its cleanup, among any steps of other processes, its record is
   gone while it still holds the lock, unless it was killed or the host went down.
   */
  lemma {:induction false} FinishedSessionLeavesNoRecord(
    h: Host, events: seq<Event>, i: nat, j: nat, k: nat, pid: Pid, s: Session)
    requires Initial(h) && i < j < k < |events| && Spared(events[i..], pid)
    requires Finishes(Run(h, events[..i]), events[i], pid, s)
    requires events[j] == ReadOwner(pid) && events[k] == Unlink(pid)
    ensures var g := Run(h, events);
      && Supervises(g, pid, s) && g.alive[pid].role.at.Closing?
      && g.owner.None? && g.lock == Some(OfSession(s))
  {
    hide Step, Reached, Finishes, Inv, Spared;
    InitialInv(h);
    SparedLater(events, i, i + 1, pid);
    SparedLater(events, i, j + 1, pid);
    SparedLater(events, i, k + 1, pid);
    RunKeepsInv(h, events[..i]);
    RunKeepsInv(h, events[..j]);
    RunKeepsInv(h, events[..k]);
    CleanupAdvances(Run(h, events[..i]), events[i], pid, s);
    RunSplits(h, events, i);
    ReachedLater(h, events, i + 1, j, pid, s, 4);
    CleanupAdvances(Run(h, events[..j]), events[j], pid, s);
    RunSplits(h, events, j);
    ReachedLater(h, events, j + 1, k, pid, s, 5);
    CleanupAdvances(Run(h, events[..k]), events[k], pid, s);
    RunSplits(h, events, k);
    ReachedLater(h, events, k + 1, |events|, pid, s, 6);
    assert events[..|events|] == events;
    RunKeepsInv(h, events);
    ClosingHasNoRecord(Run(h, events), pid, s);
  }

  // ---- The verifier

  ghost predicate AnsweredYes(h: Host, pid: Pid, birth: nat, o: Owner) {
    h.Lives(pid, birth) && h.alive[pid].role.Verifier? && h.alive[pid].role.point == Answered(Some(o))
  }

  ghost predicate Carries(h: Host, pid: Pid, birth: nat, o: Owner) {
    h.Lives(pid, birth) && h.alive[pid].role.Verifier? && Carried(h.alive[pid].role.point) == Some(o)
  }

  ghost predicate PastBirth(h: Host, pid: Pid, birth: nat, o: Owner) {
    Carries(h, pid, birth, o) && (h.alive[pid].role.point.Probe? || h.alive[pid].role.point.Answered?)
  }

  /** The recorded supervisor itself, not a later process under its pid, was running. */
  ghost predicate SupervisorLived(h: Host, o: Owner) {
    o.birth.Some? && h.Lives(o.pid, o.birth.value) && Supervises(h, o.pid, o.token)
  }

  /** The process (pid, birth) is a verifier about to take this step. */
  ghost predicate Stands(h: Host, pid: Pid, birth: nat, point: VerifyPoint) {
    h.Lives(pid, birth) && h.alive[pid].role.Verifier? && h.alive[pid].role.point == point
  }

  /** The i-th event is this verifier's birth check of record o, and the recorded supervisor was alive then. */
  ghost predicate CheckedAlive(h: Host, events: seq<Event>, pid: Pid, birth: nat, o: Owner, i: nat) {
    && i < |events| && events[i] == Verify(pid, true)
    && Stands(Run(h, events[..i]), pid, birth, CheckBirth(o))
    && SupervisorLived(Run(h, events[..i]), o)
  }

  /** The i-th event is this verifier's probe for record o, and the lock was taken then. */
  ghost predicate ProbedLocked(h: Host, events: seq<Event>, pid: Pid, birth: nat, o: Owner, i: nat) {
    && i < |events| && events[i].Verify? && events[i].pid == pid
    && Stands(Run(h, events[..i]), pid, birth, Probe(o))
    && Run(h, events[..i]).lock.Some?
  }

  /** Only its own steps move a verifier. */
  lemma OthersLeaveVerifier(h: Host, e: Event, pid: Pid, birth: nat)
    requires !(e.Verify? && e.pid == pid)
    requires Step(h, e).Lives(pid, birth) && Step(h, e).alive[pid].role.Verifier?
    ensures || Step(h, e).alive[pid].role.point.CheckDescriptor?
            || (h.Lives(pid, birth) && h.alive[pid] == Step(h, e).alive[pid])
  {
  }

  /** A verifier gets past the birth check, and to its answer, only by these two steps of its own. */
  lemma AnswerNeedsStep(h: Host, e: Event, pid: Pid, birth: nat, o: Owner)
    requires Inv(h)
    ensures PastBirth(Step(h, e), pid, birth, o) && !PastBirth(h, pid, birth, o) ==>
              e == Verify(pid, true) && Stands(h, pid, birth, CheckBirth(o)) && SupervisorLived(h, o)
    ensures AnsweredYes(Step(h, e), pid, birth, o) && !AnsweredYes(h, pid, birth, o) ==>
              e.Verify? && e.pid == pid && Stands(h, pid, birth, Probe(o)) && h.lock.Some?
  {
    if e.Verify? && e.pid == pid {
      if h.IsVerifier(pid) { assert Fits(h, pid); }
    } else if Step(h, e).Lives(pid, birth) && Step(h, e).alive[pid].role.Verifier? {
      OthersLeaveVerifier(h, e, pid, birth);
    }
  }

  lemma PrefixOf(events: seq<Event>, i: nat)
    requires 0 < |events| && i < |events|
    ensures events[..|events| - 1][..i] == events[..i]
  {
  }

  lemma {:induction false} PastBirthSawSupervisor(h: Host, events: seq<Event>, pid: Pid, birth: nat, o: Owner)
    returns (i: nat)
    requires Initial(h) && PastBirth(Run(h, events), pid, birth, o)
    ensures CheckedAlive(h, events, pid, birth, o, i)
    decreases |events|
  {
    var last := |events| - 1;
    var before := Run(h, events[..last]);
    InitialInv(h);
    RunKeepsInv(h, events[..last]);
    AnswerNeedsStep(before, events[last], pid, birth, o);
    if PastBirth(before, pid, birth, o) {
      i := PastBirthSawSupervisor(h, events[..last], pid, birth, o);
      PrefixOf(events, i);
    } else {
      i := last;
    }
  }

  /**
   verify_inherited_lock answers true only if, at its own birth check, the recorded supervisor itself was
   running (not another process under its pid), and at its own, later probe the lock was taken.
   */
  lemma {:induction false} TrueHasWitnesses(h: Host, events: seq<Event>, pid: Pid, birth: nat, o: Owner)
    returns (checked: nat, probed: nat)
    requires Initial(h) && AnsweredYes(Run(h, events), pid, birth, o)
    ensures checked < probed
    ensures CheckedAlive(h, events, pid, birth, o, checked)
    ensures ProbedLocked(h, events, pid, birth, o, probed)
    decreases |events|
  {
    var last := |events| - 1;
    var before := Run(h, events[..last]);
    InitialInv(h);
    RunKeepsInv(h, events[..last]);
    AnswerNeedsStep(before, events[last], pid, birth, o);
    if AnsweredYes(before, pid, birth, o) {
      checked, probed := TrueHasWitnesses(h, events[..last], pid, birth, o);
      PrefixOf(events, checked);
      PrefixOf(events, probed);
    } else {
      probed := last;
      checked := PastBirthSawSupervisor(h, events[..last], pid, birth, o);
      PrefixOf(events, checked);
    }
  }

  /** True was answered for the record of the session that now holds the lock, which asked with its own token. */
  ghost predicate TrueOfHolder(h: Host, pid: Pid, o: Owner)
    requires h.IsVerifier(pid)
  {
    h.lock == Some(OfSession(o.token)) && h.alive[pid].role.token == Some(o.token)
  }

  /** For a verifier that inherited its descriptor, the record is its own session's and that session holds the lock. */
  lemma {:induction false} InheritedAnswerIsOwnSession(h: Host, events: seq<Event>, pid: Pid, birth: nat, o: Owner)
    requires Initial(h) && AnsweredYes(Run(h, events), pid, birth, o)
    requires Run(h, events).alive[pid].role.descriptor.Inherited?
    ensures o.token == Run(h, events).alive[pid].role.descriptor.session
    ensures TrueOfHolder(Run(h, events), pid, o)
  {
    InitialInv(h);
    RunKeepsInv(h, events);
    assert Fits(Run(h, events), pid);
  }

  /** A descriptor of another file is never answered true. */
  lemma {:induction false} OtherFileIsRefused(h: Host, events: seq<Event>, pid: Pid, birth: nat, o: Owner)
    requires Initial(h) && Run(h, events).IsVerifier(pid)
    requires Run(h, events).alive[pid].role.descriptor.NotLockFile?
    ensures !AnsweredYes(Run(h, events), pid, birth, o)
  {
    InitialInv(h);
    RunKeepsInv(h, events);
    assert Fits(Run(h, events), pid);
  }

  // ---- A genuine lease is never refused

  /** The supervisor of s still waits for its child and its record o carries its birth and this boot. */
  ghost predicate Leased(h: Host, pid: Pid, s: Session, o: Owner) {
    && AtRun(h, pid, s)
    && h.owner == Some(o)
    && o.birth == Some(h.alive[pid].birth)
    && o.boot == Some(h.boot)
  }

  /** A verifier of session s that has not been refused. */
  ghost predicate Accepting(h: Host, v: Pid, birth: nat, s: Session, o: Owner) {
    h.Lives(v, birth) ==>
      && h.alive[v].role.Verifier?
      && h.alive[v].role.descriptor == Inherited(s)
      && h.alive[v].role.token == Some(s)
      && h.alive[v].role.point in
           {CheckDescriptor, ReadRecord, CheckAlive(o), CheckBirth(o), Probe(o), Answered(Some(o))}
  }

  lemma OwnStepAccepts(h: Host, sup: Pid, s: Session, v: Pid, o: Owner)
    requires v in h.alive && Accepting(h, v, h.alive[v].birth, s, o) && Leased(h, sup, s, o)
    requires h.lock == Some(OfSession(s)) && o.token == s && o.pid == sup
    ensures Accepting(VerifyStep(h, v, true), v, h.alive[v].birth, s, o)
  {
  }

  lemma LeaseHoldsLock(h: Host, sup: Pid, s: Session, o: Owner)
    requires Inv(h) && Leased(h, sup, s, o)
    ensures h.lock == Some(OfSession(s)) && o.token == s && o.pid == sup
  {
    assert Fits(h, sup);
  }

  lemma StepKeepsAccepting(h: Host, e: Event, sup: Pid, s: Session, v: Pid, birth: nat, o: Owner)
    requires Inv(h) && Leased(h, sup, s, o) && Accepting(h, v, birth, s, o) && (v, birth) in h.births
    requires e.Verify? && e.pid == v ==> e.textRead
    ensures Accepting(Step(h, e), v, birth, s, o) && (v, birth) in Step(h, e).births
  {
    hide Inv, Names, SupervisorFits, VerifierFits, LockFits, OneSupervisorEach;
    LeaseHoldsLock(h, sup, s, o);
    if e.Verify? && e.pid == v {
      if h.Lives(v, birth) { OwnStepAccepts(h, sup, s, v, o); }
    } else if Step(h, e).Lives(v, birth) && Step(h, e).alive[v].role.Verifier? {
      OthersLeaveVerifier(h, e, v, birth);
    }
  }

  /**
   A process under a live session that asks with the session's token is answered true, however the
   other processes interleave, as long as its supervisor waits and the ps and sysctl texts can be read.
   */
  lemma {:induction false} LeaseIsHonoured(
    h: Host, events: seq<Event>, sup: Pid, s: Session, v: Pid, birth: nat, o: Owner)
    requires Inv(h) && (v, birth) in h.births && Accepting(h, v, birth, s, o)
    requires forall i :: 0 <= i < |events| ==> Leased(Run(h, events[..i]), sup, s, o)
    requires forall i :: 0 <= i < |events| && events[i].Verify? && events[i].pid == v ==> events[i].textRead
    ensures Accepting(Run(h, events), v, birth, s, o)
    ensures (v, birth) in Run(h, events).births
    decreases |events|
  {
    if events == [] {
    } else {
      var last := |events| - 1;
      forall i | 0 <= i < last ensures Leased(Run(h, events[..last][..i]), sup, s, o) {
        PrefixOf(events, i);
        assert Leased(Run(h, events[..i]), sup, s, o);
      }
      LeaseIsHonoured(h, events[..last], sup, s, v, birth, o);
      RunKeepsInv(h, events[..last]);
      assert Leased(Run(h, events[..last]), sup, s, o);
      StepKeepsAccepting(Run(h, events[..last]), events[last], sup, s, v, birth, o);
    }
  }

  /** The record that a supervisor writes when it can read both texts names itself, its birth and this boot. */
  lemma {:induction false} RecordNamesWriter(h: Host, events: seq<Event>, sup: Pid, s: Session)
    requires Initial(h) && Supervises(Run(h, events), sup, s) && Run(h, events).alive[sup].role.at.Locked?
    ensures var g := Run(h, events);
      var next := Step(g, WriteOwner(sup, true, true));
      && next.owner == Some(Owner(sup, Some(g.alive[sup].birth), Some(g.boot), s))
      && next.boot == g.boot && next.Lives(sup, g.alive[sup].birth) && Reached(next, sup, s, 2)
  {
  }

  /** The lease is for this child, which is running. */
  ghost predicate LeasedTo(h: Host, sup: Pid, s: Session, o: Owner, child: Pid, birth: nat) {
    && Leased(h, sup, s, o) && h.alive[sup].role.at == Running(child, birth)
    && h.Lives(child, birth) && h.alive[child].role == Member(s)
  }

  /** A supervisor with such a record that starts a child gives it a lease: the child holds the lock. */
  lemma SpawnLeases(h: Host, sup: Pid, s: Session, child: Pid, birth: nat)
    requires Inv(h) && Supervises(h, sup, s) && h.alive[sup].role.at.Owned? && h.Fresh(child, birth)
    requires h.owner.Some? && h.owner.value.birth == Some(h.alive[sup].birth) && h.owner.value.boot == Some(h.boot)
    ensures var g := Step(h, Spawn(sup, child, birth));
      LeasedTo(g, sup, s, h.owner.value, child, birth) && g.lock == Some(OfSession(s))
  {
    hide Names, VerifierFits;
    assert Fits(h, sup);
  }

  lemma StepKeepsLease(h: Host, e: Event, sup: Pid, s: Session, o: Owner, child: Pid, birth: nat)
    requires Inv(h) && LeasedTo(h, sup, s, o, child, birth)
    requires e != Die(sup) && e != Die(child) && !e.Reboot?
    ensures LeasedTo(Step(h, e), sup, s, o, child, birth)
  {
    hide Names, VerifierFits, LockFits;
    assert Fits(h, sup);
    if Step(h, e).owner != h.owner { OwnerChangedBy(h, e); }
  }

  /** Nothing but the death of the supervisor or its child, or of the host, ends a lease. */
  lemma {:induction false} LeaseLasts(
    h: Host, events: seq<Event>, sup: Pid, s: Session, o: Owner, child: Pid, birth: nat)
    requires Inv(h) && LeasedTo(h, sup, s, o, child, birth) && Spared(events, sup) && Spared(events, child)
    ensures LeasedTo(Run(h, events), sup, s, o, child, birth)
    decreases |events|
  {
    hide Inv, Step, LeasedTo;
    if events == [] {
    } else {
      var front := events[..|events| - 1];
      LeaseLasts(h, front, sup, s, o, child, birth);
      RunKeepsInv(h, front);
      StepKeepsLease(Run(h, front), events[|events| - 1], sup, s, o, child, birth);
    }
  }

  /** How many of the events are turns of this verifier. */
  function Turns(events: seq<Event>, v: Pid): nat {
    if events == [] then 0
    else
      var last := events[|events| - 1];
      Turns(events[..|events| - 1], v) + (if last.Verify? && last.pid == v then 1 else 0)
  }

  function VerifyRank(point: VerifyPoint): nat {
    match point
    case CheckDescriptor => 0
    case ReadRecord => 1
    case CheckAlive(_) => 2
    case CheckBirth(_) => 3
    case Probe(_) => 4
    case Release => 5
    case Answered(_) => 5
  }

  /** The verifier lives, has not been refused and has come this far. */
  ghost predicate Advances(h: Host, v: Pid, birth: nat, s: Session, o: Owner, turns: nat) {
    && h.Lives(v, birth) && Accepting(h, v, birth, s, o)
    && VerifyRank(h.alive[v].role.point) >= (if turns < 5 then turns else 5)
  }

  lemma StaysAlive(h: Host, e: Event, v: Pid, birth: nat)
    requires h.Lives(v, birth) && h.alive[v].role.Verifier? && e != Die(v) && !e.Reboot?
    requires !(e.Verify? && e.pid == v)
    ensures Step(h, e).Lives(v, birth) && Step(h, e).alive[v] == h.alive[v]
  {
  }

  lemma StepAdvances(h: Host, e: Event, sup: Pid, s: Session, v: Pid, birth: nat, o: Owner, turns: nat)
    requires Inv(h) && Leased(h, sup, s, o) && Advances(h, v, birth, s, o, turns) && (v, birth) in h.births
    requires e.Verify? && e.pid == v ==> e.textRead
    requires e != Die(v) && !e.Reboot?
    ensures Advances(Step(h, e), v, birth, s, o, turns + (if e.Verify? && e.pid == v then 1 else 0))
    ensures (v, birth) in Step(h, e).births
  {
    hide Inv, Names, SupervisorFits, VerifierFits, LockFits, OneSupervisorEach;
    StepKeepsAccepting(h, e, sup, s, v, birth, o);
    LeaseHoldsLock(h, sup, s, o);
    if e.Verify? && e.pid == v {
    } else {
      StaysAlive(h, e, v, birth);
      OthersLeaveVerifier(h, e, v, birth);
    }
  }

  lemma {:induction false} AdvancesWithTurns(
    h: Host, events: seq<Event>, sup: Pid, s: Session, child: Pid, childBirth: nat, v: Pid, birth: nat, o: Owner)
    requires Inv(h) && LeasedTo(h, sup, s, o, child, childBirth)
    requires Spared(events, sup) && Spared(events, child) && Spared(events, v)
    requires Advances(h, v, birth, s, o, 0) && (v, birth) in h.births
    requires forall i :: 0 <= i < |events| && events[i].Verify? && events[i].pid == v ==> events[i].textRead
    ensures Advances(Run(h, events), v, birth, s, o, Turns(events, v)) && (v, birth) in Run(h, events).births
    decreases |events|
  {
    hide Inv, Step, Leased, Advances;
    if events == [] {
    } else {
      var front := events[..|events| - 1];
      AdvancesWithTurns(h, front, sup, s, child, childBirth, v, birth, o);
      RunKeepsInv(h, front);
      LeaseLasts(h, front, sup, s, o, child, childBirth);
      StepAdvances(Run(h, front), events[|events| - 1], sup, s, v, birth, o, Turns(front, v));
    }
  }

  /**
   And the answer comes: under a lease, after five of its own turns and whatever turns of others, a verifier
   that inherited its descriptor and asks with the session's token is answered true with the leased record.
   */
  lemma {:induction false} LeaseIsAnswered(
    h: Host, events: seq<Event>, sup: Pid, s: Session, child: Pid, childBirth: nat, v: Pid, birth: nat, o: Owner)
    requires Inv(h) && LeasedTo(h, sup, s, o, child, childBirth)
    requires Spared(events, sup) && Spared(events, child) && Spared(events, v)
    requires h.Lives(v, birth) && h.alive[v].role == Verifier(Inherited(s), Some(s), CheckDescriptor)
    requires forall i :: 0 <= i < |events| && events[i].Verify? && events[i].pid == v ==> events[i].textRead
    requires Turns(events, v) >= 5
    ensures AnsweredYes(Run(h, events), v, birth, o)
  {
    assert (v, birth) in h.births by { assert Fits(h, v); }
    AdvancesWithTurns(h, events, sup, s, child, childBirth, v, birth, o);
  }

  // ---- Without the inherited descriptor

  function Empty(): Host { Host(map[], {}, None, None, {}, 0) }

  const FIRST_RECORD := Owner(1, Some(10), Some(0), 0)

  /** Session 0 holds the lock; process 3, whose descriptor is of no session, asks with its token. */
  function Asking(point: VerifyPoint): Host {
    Host(map[1 := Process(10, Supervisor(0, Owned)), 3 := Process(12, Verifier(Outside, Some(0), point))],
         {(1, 10), (3, 12)}, Some(OfSession(0)), Some(FIRST_RECORD), {0}, 0)
  }

  /** Session 0 starts, process 3 makes every check but the probe, session 0 dies, session 1 takes over. */
  const STARTING := [Open(1, 10, 0), TryLock(1), WriteOwner(1, true, true), AskOutside(3, 12, true, Some(0))]
  const CHECKING := [Verify(3, true), Verify(3, true), Verify(3, true), Verify(3, true)]
  const REPLACED := [Die(1), Open(4, 13, 1), TryLock(4), Verify(3, true)]

  lemma {:induction false} FourSteps(h: Host, a: Event, b: Event, c: Event, d: Event)
    ensures Run(h, [a, b, c, d]) == Step(Step(Step(Step(h, a), b), c), d)
  {
    assert [a, b, c, d][..3] == [a, b, c] && [a, b, c][..2] == [a, b] && [a, b][..1] == [a] && [a][..0] == [];
    assert Run(h, [a]) == Step(h, a);
    assert Run(h, [a, b]) == Step(Run(h, [a]), b);
    assert Run(h, [a, b, c]) == Step(Run(h, [a, b]), c);
  }

  lemma SessionStarts()
    ensures Run(Empty(), STARTING) == Asking(CheckDescriptor)
  {
    FourSteps(Empty(), STARTING[0], STARTING[1], STARTING[2], STARTING[3]);
    var h := Host(map[1 := Process(10, Supervisor(0, Opened))], {(1, 10)}, None, None, {0}, 0);
    assert Step(Empty(), STARTING[0]) == h;
    var g := Host(map[1 := Process(10, Supervisor(0, Locked))], {(1, 10)}, Some(OfSession(0)), None, {0}, 0);
    assert Step(h, STARTING[1]) == g;
    var k := Host(map[1 := Process(10, Supervisor(0, Owned))],
                  {(1, 10)}, Some(OfSession(0)), Some(FIRST_RECORD), {0}, 0);
    assert Step(g, STARTING[2]) == k;
    assert Step(k, STARTING[3]) == Asking(CheckDescriptor);
  }

  lemma OutsiderReachesProbe()
    ensures Run(Asking(CheckDescriptor), CHECKING) == Asking(Probe(FIRST_RECORD))
  {
    FourSteps(Asking(CheckDescriptor), Verify(3, true), Verify(3, true), Verify(3, true), Verify(3, true));
    assert Step(Asking(CheckDescriptor), Verify(3, true)) == Asking(ReadRecord);
    assert Step(Asking(ReadRecord), Verify(3, true)) == Asking(CheckAlive(FIRST_RECORD));
    assert Step(Asking(CheckAlive(FIRST_RECORD)), Verify(3, true)) == Asking(CheckBirth(FIRST_RECORD));
  }

  /** Session 0 has died and its lock is gone; only process 3, about to probe, is left. */
  function Bereft(): Host {
    var h := Asking(Probe(FIRST_RECORD));
    Host(map[3 := h.alive[3]], h.births, None, h.owner, {0}, 0)
  }

  /** Session 1 has opened the lock file. */
  function Succeeded(): Host {
    var h := Bereft();
    Host(h.alive[4 := Process(13, Supervisor(1, Opened))], h.births + {(4, 13)}, None, h.owner, {0, 1}, 0)
  }

  lemma FirstSessionDies()
    ensures Step(Asking(Probe(FIRST_RECORD)), Die(1)) == Bereft()
  {
    var h := Asking(Probe(FIRST_RECORD));
    assert h.alive - {1} == map[3 := h.alive[3]];
  }

  lemma NextSessionOpens()
    ensures Step(Bereft(), Open(4, 13, 1)) == Succeeded()
  {
  }

  lemma NextSessionLocks()
    ensures var g := Step(Succeeded(), TryLock(4));
      && g.lock == Some(OfSession(1)) && !g.HasHolder(0)
      && 3 in g.alive && g.alive[3] == Asking(Probe(FIRST_RECORD)).alive[3]
  {
  }

  lemma LastProbe(g: Host)
    requires g.lock == Some(OfSession(1)) && !g.HasHolder(0)
    requires 3 in g.alive && g.alive[3] == Asking(Probe(FIRST_RECORD)).alive[3]
    ensures var next := Step(g, Verify(3, true));
      AnsweredYes(next, 3, 12, FIRST_RECORD) && next.lock == Some(OfSession(1)) && !next.HasHolder(0)
      && next.alive[3].role.descriptor == Outside
  {
    var next := Step(g, Verify(3, true));
    forall pid | pid in next.alive ensures !next.alive[pid].Holds(0) {
      assert !g.alive[pid].Holds(0);
    }
  }

  lemma SessionIsReplaced()
    ensures var g := Run(Asking(Probe(FIRST_RECORD)), REPLACED);
      AnsweredYes(g, 3, 12, FIRST_RECORD) && g.lock == Some(OfSession(1)) && !g.HasHolder(0)
      && g.alive[3].role.descriptor == Outside
  {
    hide Succeeded, Bereft;
    FourSteps(Asking(Probe(FIRST_RECORD)), REPLACED[0], REPLACED[1], REPLACED[2], REPLACED[3]);
    FirstSessionDies();
    NextSessionOpens();
    NextSessionLocks();
    LastProbe(Step(Succeeded(), TryLock(4)));
  }

  /** With a descriptor of no session, a process is told true for session 0 when only session 1 lives. */
  lemma OutsiderIsMisled()
    ensures Initial(Empty())
    ensures var g := Run(Empty(), STARTING + CHECKING + REPLACED);
      AnsweredYes(g, 3, 12, FIRST_RECORD) && g.lock == Some(OfSession(1)) && !g.HasHolder(0)
      && g.alive[3].role.descriptor == Outside
  {
    SessionStarts();
    OutsiderReachesProbe();
    SessionIsReplaced();
    RunFrom(Empty(), STARTING, CHECKING);
    RunFrom(Empty(), STARTING + CHECKING, REPLACED);
  }

  /** In no run is a verifier with this descriptor answered true of a session that does not hold the lock. */
  ghost predicate Trustworthy(d: Descriptor) {
    forall h, events, pid, birth, o ::
      Initial(h) && AnsweredYes(Run(h, events), pid, birth, o) && Run(h, events).alive[pid].role.descriptor == d
      ==> TrueOfHolder(Run(h, events), pid, o)
  }

  /** True can be trusted exactly when the descriptor is not of the lock file opened outside every session. */
  lemma TrustworthyIff(d: Descriptor)
    ensures Trustworthy(d) <==> !d.Outside?
  {
    if d.Outside? {
      OutsiderIsMisled();
      assert !TrueOfHolder(Run(Empty(), STARTING + CHECKING + REPLACED), 3, FIRST_RECORD);
    } else {
      forall h, events, pid, birth, o
        | Initial(h) && AnsweredYes(Run(h, events), pid, birth, o) && Run(h, events).alive[pid].role.descriptor == d
        ensures TrueOfHolder(Run(h, events), pid, o)
      {
        if d.Inherited? {
          InheritedAnswerIsOwnSession(h, events, pid, birth, o);
        } else {
          OtherFileIsRefused(h, events, pid, birth, o);
        }
      }
    }
  }
}
