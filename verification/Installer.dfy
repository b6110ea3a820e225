/**
 The install and recover commands of scripts/lifecycle-transaction.py, statement by statement, over
 a state directory that they update in place. The process may be killed after any durable effect:
 `budget` counts the effects it still gets to make. The object records the model run it has made,
 so that the results over runs speak about these methods.
 */
module Installer {
  import opened Wrappers
  import opened TransactionModel
  import opened TransactionProofs
  import opened TransactionTheorems

  /**
   Raised is an error of the code's own, Injected the failure that `fault` asks for, and Broken an error of
   the file system, such as a full disk or a state directory on another volume.
   */
  datatype Effect = Done | Raised | Injected | Broken | Killed

  /** What the file system makes of an effect. A journal write can fail once the journal is already replaced. */
  datatype Answer = Fine | FailsBefore | FailsAfter

  /** Where a failure can be injected: after a journal phase, or after an effect of recover. */
  datatype Checkpoint = AfterPhase(phase: Phase) | AfterReject | AfterRestore | AfterUnstage

  datatype Rejection = UnsafePath | CandidateMissing | Unreconciled | HistoryIdentity

  datatype RecoverResult =
    | NoPendingTransaction
    | AlreadyCommitted(op: OpId)
    | AlreadyRolledBack(op: OpId)
    | RolledBack(op: OpId, restored: Option<Tree>)
    | RefusedTo(refusal: Refusal)
    | Interrupted
    | RecoverKilled

  datatype InstallResult =
    | Installed(op: OpId)
    | TurnedAway(rejection: Rejection)
    | Failed(recovery: RecoverResult)
    | Errored
    | InstallKilled

  /** The candidate is active, its operation is on record as committed, and the original is kept. */
  ghost predicate InPlaceOf(before: Disk, now: Disk, candidate: Path, active: string, op: OpId)
    requires candidate in before.files
  {
    && now.journal.Some? && now.journal.value.op == op && now.journal.value.phase == Committed
    && now.Tree(Bundle(active)) == Some(before.files[candidate])
    && now.Tree(Baseline(op)) == before.Tree(Bundle(active))
  }

  lemma {:induction false} InstallGuarantee(w: World, candidate: Path, active: string, schedule: seq<Event>, op: OpId)
    requires Installable(w, candidate, active) && NoNewInstall(schedule)
    requires w.disk.Tree(Bundle(active)) != Some(w.disk.files[candidate])
    ensures var end := Run(Step(w, StartInstall(candidate, active)), schedule);
      && Inv(Step(end, Crash)) && !end.process.Refused?
      && (op !in w.issued ==> Baseline(op) !in w.disk.files)
      && (end.disk.journal.Some? && end.disk.journal.value.phase == Committed ==>
            InPlaceOf(w.disk, end.disk, candidate, active, end.disk.journal.value.op))
      && Register(end.disk, active) == Outcome(end.disk, w.disk, w.disk.files[candidate], active)
      && (end.disk.journal.Some? && end.disk.journal.value.phase == RollbackValidated ==>
            end.disk.Tree(Bundle(active)) == w.disk.Tree(Bundle(active)))
      && forall name :: name != active ==> Register(end.disk, name) == w.disk.Tree(Bundle(name))
  {
    InstallStarts(w, candidate, active);
    RunStaysDuring(Step(w, StartInstall(candidate, active)), schedule, w.disk, w.disk.files[candidate], active);
    RegisterGivesOutcome(
      Run(Step(w, StartInstall(candidate, active)), schedule), w.disk, w.disk.files[candidate], active);
    StepKeepsInv(Run(Step(w, StartInstall(candidate, active)), schedule), Crash);
  }

  /** The checks of install have passed and the journal is out of the way. */
  lemma InstallBegins(w: World, candidate: Path, active: string)
    requires w.process.Idle? && candidate != Bundle(active) && candidate in w.disk.files
    requires Settled(w.disk) && (w.disk.journal.Some? ==> w.disk.journal.value.op !in w.disk.history)
    ensures var begun := Step(w, StartInstall(candidate, active));
      && begun.disk.journal.None? && begun.disk.files == w.disk.files && begun.issued == w.issued
      && begun.process == Checked(candidate, w.disk.files[candidate], active)
  {
  }

  /** What recover says of the journal it met, `before`, and of the one it leaves. */
  ghost predicate Tells(r: RecoverResult, before: Option<Journal>, after: Option<Journal>) {
    && (r.NoPendingTransaction? <==> before.None?)
    && (r.AlreadyCommitted? <==> before.Some? && before.value.phase == Committed)
    && (r.AlreadyCommitted? ==> r.op == before.value.op)
    && (r.AlreadyRolledBack? <==> before.Some? && before.value.phase == RollbackValidated)
    && (r.AlreadyRolledBack? ==> r.op == before.value.op)
    && (r.NoPendingTransaction? || r.AlreadyCommitted? || r.AlreadyRolledBack? ==> after == before)
    && (r.RolledBack? ==>
          && before.Some? && r.op == before.value.op && r.restored == before.value.original
          && after == Some(before.value.(phase := RollbackValidated)))
  }

  function StageOf(j: Journal): Path {
    Stage(j.active, j.op)
  }

  /** A rollback of this journal, met with these files, that goes to its end comes past no such checkpoint. */
  ghost predicate Spares(fault: Option<Checkpoint>, j: Journal, files: map<Path, Tree>) {
    && fault != Some(AfterPhase(Rollback)) && fault != Some(AfterPhase(RollbackValidated))
    && (fault == Some(AfterReject) ==> Get(files, Bundle(j.active)) != Some(j.candidateTree))
    && (fault == Some(AfterRestore) ==> Baseline(j.op) !in files)
    && (fault == Some(AfterUnstage) ==> StageOf(j) !in files)
  }

  /** The phases that install writes within its try block, after each of which a failure can be injected. */
  const INSTALL_PHASES := {Preflight, Staged, BackupMoved, Phase.Replaced, Validated, Committed}

  /** A failure after this phase was asked for. */
  predicate Asks(fault: Option<Checkpoint>, phases: set<Phase>) {
    fault.Some? && fault.value.AfterPhase? && fault.value.phase in phases
  }

  /** The journal is still that of operation j, and no rollback has ended. */
  ghost predicate StillOf(j: Journal, journal: Option<Journal>) {
    journal.Some? && journal.value == j.(phase := journal.value.phase) && journal.value.phase != RollbackValidated
  }

  /** What an execution reports, in terms of the disk it leaves; asked and troubled excuse a failure. */
  ghost predicate Reported(r: InstallResult, disk: Disk, process: Process, op: OpId, original: Option<Tree>,
                           asked: bool, troubled: bool)
  {
    && !r.TurnedAway?
    && (r.Installed? ==>
          r.op == op && disk.journal.Some? && disk.journal.value.phase == Committed && disk.journal.value.op == op)
    && (r.Errored? ==> troubled)
    && (r.Failed? ==> !r.recovery.RecoverKilled?)
    && (r.Failed? && r.recovery.Interrupted? ==> troubled)
    && (r.Failed? && r.recovery.RefusedTo? ==> process.Refused?)
    && (r.Failed? ==> !r.recovery.NoPendingTransaction? && !r.recovery.AlreadyRolledBack?)
    && (r.Failed? && r.recovery.AlreadyCommitted? ==>
          && r.recovery.op == op && disk.journal.Some?
          && disk.journal.value.phase == Committed && disk.journal.value.op == op)
    && (r.Failed? && r.recovery.RolledBack? ==>
          && r.recovery == RolledBack(op, original)
          && disk.journal.Some? && disk.journal.value.phase == RollbackValidated && disk.journal.value.op == op)
  }

  /** What install owes: nothing but the one bundle is affected, and that is as before or as reported. */
  ghost predicate Promise(before: World, now: World, candidate: Path, active: string, op: OpId, r: InstallResult,
                          asked: bool, troubled: bool)
    requires candidate in before.disk.files
  {
    var original := before.disk.Tree(Bundle(active));
    && Inv(now)
    && (Register(now.disk, active) == original || Register(now.disk, active) == Some(before.disk.files[candidate]))
    && (r.Installed? ==> InPlaceOf(before.disk, now.disk, candidate, active, op))
    && (r.Failed? ==> (asked || troubled) && !r.recovery.RefusedTo?)
    && (r.Errored? || (r.Failed? && r.recovery.Interrupted?) ==> troubled)
    && (r.Failed? && r.recovery.RolledBack? ==>
          r.recovery == RolledBack(op, original) && now.disk.Tree(Bundle(active)) == original)
    && (r.Failed? && r.recovery.AlreadyCommitted? ==>
          r.recovery.op == op && InPlaceOf(before.disk, now.disk, candidate, active, op))
    && (r.Failed? ==> r.recovery.RolledBack? || r.recovery.AlreadyCommitted? || r.recovery.Interrupted?)
    && forall name :: name != active ==> Register(now.disk, name) == before.disk.Tree(Bundle(name))
  }

  lemma SettledRegister(d: Disk)
    requires Settled(d)
    ensures forall name :: Register(d, name) == d.Tree(Bundle(name))
  {
  }

  /** An install that is killed or fails before it has begun. */
  lemma NotBegun(w: World, candidate: Path, active: string, op: OpId, r: InstallResult, asked: bool, troubled: bool)
    requires Installable(w, candidate, active) && (r.InstallKilled? || (r.Errored? && troubled))
    ensures Promise(w, Step(w, Crash), candidate, active, op, r, asked, troubled)
  {
    hide Inv, Register;
    SettledRegister(w.disk);
    StepKeepsInv(w, Crash);
    assert Step(w, Crash).disk == w.disk;
  }

  lemma {:induction false} PromiseKept(
    w: World, candidate: Path, active: string, schedule: seq<Event>, op: OpId, r: InstallResult,
    asked: bool, troubled: bool)
    requires Installable(w, candidate, active) && NoNewInstall(schedule) && op !in w.issued
    requires w.disk.Tree(Bundle(active)) != Some(w.disk.files[candidate])
    requires var end := Run(Step(w, StartInstall(candidate, active)), schedule);
      Reported(r, end.disk, end.process, op, w.disk.Tree(Bundle(active)), asked, troubled)
    requires r.Failed? ==> asked || troubled || w.disk.Taken(Baseline(op))
    ensures var end := Run(Step(w, StartInstall(candidate, active)), schedule);
      Promise(w, Step(end, Crash), candidate, active, op, r, asked, troubled)
  {
    hide Run, Inv, Register, StepStartInstall, NoNewInstall;
    InstallGuarantee(w, candidate, active, schedule, op);
    var end := Run(Step(w, StartInstall(candidate, active)), schedule);
    assert Step(end, Crash).disk == end.disk;
  }

  /** The first effect of a rollback is its journal write. */
  lemma RollbackBegins(w: World)
    requires w.process == Recovering(Begin) && w.disk.journal.Some? && !w.disk.journal.value.Reconciled()
    ensures Step(w, Advance).process == Recovering(ToReject)
    ensures Step(w, Advance).issued == w.issued
    ensures Step(w, Advance).disk == w.disk.SetPhase(Rollback)
  {
  }

  /** The trace only grew, and by nothing that starts or opens another operation. */
  ghost predicate Extends(earlier: seq<Event>, later: seq<Event>) {
    && earlier <= later
    && forall i :: |earlier| <= i < |later| ==> !later[i].StartInstall? && !later[i].OpenJournal?
  }

  /** A later part of a trace is a run from where the earlier part ended. */
  lemma {:induction false} RunSince(start: World, earlier: seq<Event>, later: seq<Event>)
    requires earlier <= later
    ensures Run(start, later) == Run(Run(start, earlier), later[|earlier|..])
  {
    RunConcat(start, earlier, later[|earlier|..]);
    assert earlier + later[|earlier|..] == later;
  }

  lemma RecoverStepKeeps(w: World, e: Event)
    requires Inv(w) && (w.process.Idle? || w.process.Recovering?)
    requires !e.StartInstall? && !e.OpenJournal?
    ensures Inv(Step(w, e)) && (Step(w, e).process.Idle? || Step(w, e).process.Recovering?)
    ensures forall name :: Register(Step(w, e).disk, name) == Register(w.disk, name)
  {
    StepKeepsInv(w, e);
    forall name
      ensures Register(Step(w, e).disk, name) == Register(w.disk, name)
    {
      if e.Advance? && w.process.Recovering? {
        RecoverRefinesRegister(w, w.process.recover, name);
      }
    }
  }

  /** A process that only recovers keeps the invariant and every register. */
  lemma {:induction false} RecoverRunKeeps(w: World, events: seq<Event>)
    requires Inv(w) && (w.process.Idle? || w.process.Recovering?)
    requires forall i :: 0 <= i < |events| ==> !events[i].StartInstall? && !events[i].OpenJournal?
    ensures Inv(Run(w, events))
    ensures forall name :: Register(Run(w, events).disk, name) == Register(w.disk, name)
    decreases |events|
  {
    if events == [] {
    } else {
      hide Inv, Register, Step;
      RecoverStepKeeps(w, events[0]);
      RecoverRunKeeps(Step(w, events[0]), events[1..]);
    }
  }

  class StateDirectory {
    var files: map<Path, Tree>
    var journal: Option<Journal>
    var history: map<OpId, Journal>
    var budget: nat
    const outcomes: nat -> Answer
    var next: nat

    ghost var troubles: nat  // effects that the file system has failed
    ghost var issued: set<OpId>
    ghost var process: Process
    ghost var start: World
    ghost var trace: seq<Event>

    function OnDisk(): Disk
      reads this
    {
      Disk(files, journal, history)
    }

    ghost function Now(): World
      reads this
    {
      World(OnDisk(), issued, process)
    }

    /** The fields are where the recorded events lead from the recorded start. */
    ghost predicate Valid()
      reads this
    {
      Run(start, trace) == Now()
    }

    constructor (bundles: map<Path, Tree>, effects: nat, outcomes: nat -> Answer)
      requires forall p :: p in bundles ==> p.Bundle?
      ensures Valid() && Initial(Now()) && files == bundles && budget == effects
      ensures start == Now() && trace == [] && troubles == 0
    {
      this.outcomes, next, troubles := outcomes, 0, 0;
      files, journal, history, budget := bundles, None, map[], effects;
      issued, process, trace := {}, Idle, [];
      start := World(Disk(bundles, None, map[]), {}, Idle);
    }

    /** Records one event of the model. */
    ghost method Record(e: Event, before: World)
      requires Run(start, trace) == before
      requires OnDisk() == Step(before, e).disk
      modifies `trace, `process, `issued
      ensures Valid() && Now() == Step(before, e)
      ensures trace == old(trace) + [e]
    {
      RunConcat(start, trace, [e]);
      assert Run(before, [e]) == Step(before, e);
      trace := trace + [e];
      process, issued := Step(before, e).process, Step(before, e).issued;
    }

    /** The kernel ends the process here. */
    ghost method End()
      requires Valid()
      modifies `trace, `process, `issued
      ensures Valid() && process.Idle? && issued == old(issued) && Now() == Step(old(Now()), Crash)
      ensures trace == old(trace) + [Crash]
    {
      Record(Crash, Now());
    }

    /** Asks the file system for one effect. */
    method Attempt() returns (o: Answer)
      modifies `next, `troubles
      ensures troubles == old(troubles) + (if o.Fine? then 0 else 1)
    {
      o := outcomes(next);
      next := next + 1;
      if !o.Fine? {
        troubles := troubles + 1;
      }
    }

    /** set_phase: a durable journal write, then the injected failure if this phase was asked for. */
    method SetPhase(phase: Phase, fault: Option<Checkpoint>) returns (r: Effect)
      requires Valid() && journal.Some? && Step(Now(), Advance).disk == OnDisk().SetPhase(phase)
      modifies `journal, `budget, `next, `troubles, `trace, `process, `issued
      ensures Valid() && Extends(old(trace), trace) && old(troubles) <= troubles
      ensures r == Killed ==> budget == 0 && Now() == old(Now())
      ensures r == Done || r == Injected ==> Now() == Step(old(Now()), Advance)
      ensures r == Broken ==> Now() == old(Now()) || Now() == Step(old(Now()), Advance)
      ensures r == Broken ==> troubles > old(troubles)
      ensures r != Raised
      ensures r == Injected <==> fault == Some(AfterPhase(phase)) && r != Killed && r != Broken
    {
      if budget == 0 {
        return Killed;
      }
      var answer := Attempt();
      if answer.FailsBefore? {
        return Broken;
      }
      ghost var before := Now();
      budget := budget - 1;
      journal := Some(journal.value.(phase := phase));
      Record(Advance, before);
      r := if answer.FailsAfter? then Broken else if fault == Some(AfterPhase(phase)) then Injected else Done;
    }

    /** os.replace of a bundle directory. A missing source or a target that is not empty is always an error. */
    method Rename(source: Path, target: Path) returns (r: Effect)
      requires Valid()
      requires source in files && !OnDisk().Taken(target) ==>
                 Step(Now(), Advance).disk == OnDisk().Rename(source, target)
      modifies `files, `budget, `next, `troubles, `trace, `process, `issued
      ensures Valid() && Extends(old(trace), trace) && old(troubles) <= troubles
      ensures r != Injected && (r == Raised <==> source !in old(files) || old(OnDisk()).Taken(target))
      ensures r != Done ==> Now() == old(Now())
      ensures r == Done ==> Now() == Step(old(Now()), Advance)
      ensures r == Killed ==> budget == 0
      ensures r == Broken ==> troubles > old(troubles)
    {
      if source !in files || (target in files && files[target] != map[]) {
        return Raised;
      }
      if budget == 0 {
        return Killed;
      }
      var answer := Attempt();
      if !answer.Fine? {
        return Broken;
      }
      ghost var before := Now();
      budget := budget - 1;
      files := (files - {source})[target := files[source]];
      Record(Advance, before);
      r := Done;
    }

    /** One effect of shutil.copytree: one more file of the candidate reaches the stage. */
    method CopyFile(stage: Path, name: string, contents: string) returns (r: Effect)
      requires Valid() && process == Installing(Copying) && journal.Some?
      requires stage == StageOf(journal.value) && stage in files
      modifies `files, `budget, `next, `troubles, `trace, `process, `issued
      ensures Valid() && Extends(old(trace), trace) && old(troubles) <= troubles
      ensures process == Installing(Copying) && issued == old(issued)
      ensures r in {Done, Broken, Killed} && (r == Killed ==> budget == 0)
      ensures r == Broken ==> troubles > old(troubles)
      ensures r == Done ==> files == old(files)[stage := old(files)[stage][name := contents]]
    {
      if budget == 0 {
        return Killed;
      }
      var answer := Attempt();
      if !answer.Fine? {
        return Broken;
      }
      ghost var before := Now();
      budget := budget - 1;
      files := files[stage := files[stage][name := contents]];
      Record(CopyTo(files[stage]), before);
      r := Done;
    }

    /** The loop of shutil.copytree over the candidate's files, in any order. */
    method CopyFiles(stage: Path, source: Tree) returns (r: Effect)
      requires Valid() && process == Installing(Copying) && journal.Some?
      requires stage == StageOf(journal.value) && Get(files, stage) == Some(map[])
      modifies `files, `budget, `next, `troubles, `trace, `process, `issued
      ensures Valid() && Extends(old(trace), trace) && old(troubles) <= troubles
      ensures process == Installing(Copying) && issued == old(issued)
      ensures r in {Done, Broken, Killed} && (r == Killed ==> budget == 0)
      ensures r == Broken ==> troubles > old(troubles)
      ensures r == Done ==> files == old(files)[stage := source]
    {
      var left := source.Keys;
      while left != {}
        invariant Valid() && Extends(old(trace), trace) && old(troubles) <= troubles
        invariant process == Installing(Copying) && issued == old(issued)
        invariant left <= source.Keys
        invariant stage in files && files == old(files)[stage := files[stage]]
        invariant files[stage] == map name | name in source && name !in left :: source[name]
        decreases left
      {
        var name :| name in left;
        r := CopyFile(stage, name, source[name]);
        if r != Done {
          return;
        }
        left := left - {name};
      }
      assert files[stage] == source;
      r := Done;
    }

    /** The first effect of shutil.copytree: the target directory. */
    method MakeStage() returns (r: Effect)
      requires Valid() && process == Installing(ToCopy) && journal.Some?
      modifies `files, `budget, `next, `troubles, `trace, `process, `issued
      ensures Valid() && Extends(old(trace), trace) && old(troubles) <= troubles
      ensures process.Installing? && issued == old(issued)
      ensures r in {Done, Broken, Killed} && (r == Killed ==> budget == 0)
      ensures r == Broken ==> troubles > old(troubles)
      ensures r == Done ==> process == Installing(Copying) && files == old(files)[StageOf(journal.value) := map[]]
    {
      hide Run;
      if budget == 0 {
        return Killed;
      }
      var answer := Attempt();
      if !answer.Fine? {
        return Broken;
      }
      ghost var before := Now();
      budget := budget - 1;
      files := files[StageOf(journal.value) := map[]];
      Record(Advance, before);
      r := Done;
    }

    /** shutil.copytree: the target directory first, then the files. */
    method CopyTree(source: Tree) returns (r: Effect)
      requires Valid() && process == Installing(ToCopy) && journal.Some?
      modifies `files, `budget, `next, `troubles, `trace, `process, `issued
      ensures Valid() && Extends(old(trace), trace) && old(troubles) <= troubles
      ensures process.Installing? && issued == old(issued)
      ensures r in {Done, Broken, Killed} && (r == Killed ==> budget == 0)
      ensures r == Broken ==> troubles > old(troubles)
      ensures r == Done ==> process == Installing(ToStaged) && files == old(files)[StageOf(journal.value) := source]
    {
      hide Run;
      r := MakeStage();
      if r != Done {
        return;
      }
      r := CopyFiles(StageOf(journal.value), source);
      if r == Done {
        Record(FinishCopy, Now());
      }
    }

    /** One effect of shutil.rmtree: a file of the stage goes. */
    method RemoveFile(stage: Path, name: string) returns (r: Effect)
      requires Valid() && process == Recovering(Removing) && journal.Some?
      requires stage == StageOf(journal.value) && stage in files
      modifies `files, `budget, `next, `troubles, `trace, `process, `issued
      ensures Valid() && Extends(old(trace), trace) && old(troubles) <= troubles
      ensures process == Recovering(Removing) && issued == old(issued)
      ensures r in {Done, Broken, Killed} && (r == Killed ==> budget == 0)
      ensures r == Broken ==> troubles > old(troubles)
      ensures files == if r == Done then old(files)[stage := old(files)[stage] - {name}] else old(files)
    {
      if budget == 0 {
        return Killed;
      }
      var answer := Attempt();
      if !answer.Fine? {
        return Broken;
      }
      ghost var before := Now();
      budget := budget - 1;
      files := files[stage := files[stage] - {name}];
      Record(RemoveTo(files[stage]), before);
      r := Done;
    }

    /** The loop of shutil.rmtree over the files of a stage, in any order. */
    method RemoveFiles(stage: Path) returns (r: Effect)
      requires Valid() && process == Recovering(Removing) && journal.Some?
      requires stage == StageOf(journal.value) && stage in files
      modifies `files, `budget, `next, `troubles, `trace, `process, `issued
      ensures Valid() && Extends(old(trace), trace) && old(troubles) <= troubles
      ensures process == Recovering(Removing) && issued == old(issued)
      ensures r in {Done, Broken, Killed} && (r == Killed ==> budget == 0)
      ensures r == Broken ==> troubles > old(troubles)
      ensures r == Done ==> files == old(files)[stage := map[]]
    {
      hide Valid;
      while files[stage] != map[]
        invariant Valid() && Extends(old(trace), trace) && old(troubles) <= troubles
        invariant process == Recovering(Removing) && issued == old(issued)
        invariant stage in files && files == old(files)[stage := files[stage]]
        decreases files[stage].Keys
      {
        var name :| name in files[stage];
        r := RemoveFile(stage, name);
        if r != Done {
          return;
        }
      }
      r := Done;
    }

    /** shutil.rmtree: the files first, then the directory. */
    method RemoveTree(stage: Path) returns (r: Effect)
      requires Valid() && process == Recovering(Removing) && journal.Some?
      requires stage == StageOf(journal.value) && stage in files
      modifies `files, `budget, `next, `troubles, `trace, `process, `issued
      ensures Valid() && Extends(old(trace), trace) && old(troubles) <= troubles
      ensures r in {Done, Broken, Killed} && (r == Killed ==> budget == 0) && issued == old(issued)
      ensures r == Broken ==> troubles > old(troubles)
      ensures r == Broken ==> process == Recovering(Removing)
      ensures r == Done ==> process == Recovering(ToVerify) && files == old(files) - {stage}
    {
      r := RemoveFiles(stage);
      if r != Done {
        return;
      }
      if budget == 0 {
        return Killed;
      }
      var answer := Attempt();
      if !answer.Fine? {
        return Broken;
      }
      ghost var before := Now();
      budget := budget - 1;
      files := files - {stage};
      Record(Advance, before);
    }

    // ----- recover, one method for each of its blocks

    /** A candidate that reached the active path is moved aside. */
    method Reject(j: Journal, fault: Option<Checkpoint>) returns (r: Effect, refusal: Refusal)
      requires Valid() && process == Recovering(ToReject) && journal == Some(j)
      modifies `files, `budget, `next, `troubles, `trace, `process, `issued
      ensures Valid() && Extends(old(trace), trace) && old(troubles) <= troubles && issued == old(issued)
      ensures r == Done || r == Injected ==> process == Recovering(ToRestore)
      ensures r == Injected ==> fault == Some(AfterReject) && Rejected(j.op) in files
      ensures r == Done && fault == Some(AfterReject) ==> Get(old(files), Bundle(j.active)) != Some(j.candidateTree)
      ensures forall p :: p != Bundle(j.active) && p != Rejected(j.op) ==> (p in files <==> p in old(files))
      ensures r == Raised ==> process == Refused(refusal)
      ensures r == Broken ==> troubles > old(troubles) && process == Recovering(ToReject)
      ensures r == Killed ==> budget == 0
    {
      r, refusal := Done, RejectedExists;
      if Get(files, Bundle(j.active)) == Some(j.candidateTree) {
        if Rejected(j.op) in files {
          r := Raised;
          Record(Advance, Now());
        } else {
          r := Rename(Bundle(j.active), Rejected(j.op));
          if r == Done && fault == Some(AfterReject) {
            r := Injected;
          }
        }
      } else {
        if Bundle(j.active) in files && j.original.None? {
          r, refusal := Raised, UnexpectedActive;
        }
        Record(Advance, Now());
      }
    }

    /** The backup, if one was taken, goes back to the active path. */
    method Restore(j: Journal, fault: Option<Checkpoint>) returns (r: Effect, refusal: Refusal)
      requires Valid() && process == Recovering(ToRestore) && journal == Some(j)
      modifies `files, `budget, `next, `troubles, `trace, `process, `issued
      ensures Valid() && Extends(old(trace), trace) && old(troubles) <= troubles && issued == old(issued)
      ensures r == Done || r == Injected ==> process == Recovering(ToUnstage)
      ensures r == Injected ==> fault == Some(AfterRestore) && Get(files, Bundle(j.active)) == j.original
      ensures r == Done && fault == Some(AfterRestore) ==> Baseline(j.op) !in old(files)
      ensures forall p :: p != Bundle(j.active) && p != Baseline(j.op) ==> (p in files <==> p in old(files))
      ensures r == Raised ==> process == Refused(refusal)
      ensures r == Broken ==> troubles > old(troubles) && process == Recovering(ToRestore)
      ensures r == Killed ==> budget == 0
    {
      var active, backup := Bundle(j.active), Baseline(j.op);
      r, refusal := Done, BaselineMissing;
      if backup in files {
        if Some(files[backup]) != j.original {
          r, refusal := Raised, BaselineMismatch;
          Record(Advance, Now());
        } else if active in files {
          r, refusal := Raised, ActiveOccupied;
          Record(Advance, Now());
        } else {
          r := Rename(backup, active);
          if r == Done && fault == Some(AfterRestore) {
            r := Injected;
          }
        }
      } else {
        if j.original.Some? && Get(files, active) != j.original {
          r := Raised;
        }
        Record(Advance, Now());
      }
    }

    /** What is left of the stage is removed. */
    method Unstage(j: Journal, fault: Option<Checkpoint>) returns (r: Effect)
      requires Valid() && process == Recovering(ToUnstage) && journal == Some(j)
      modifies `files, `budget, `next, `troubles, `trace, `process, `issued
      ensures Valid() && Extends(old(trace), trace) && old(troubles) <= troubles && issued == old(issued)
      ensures r == Done || r == Injected ==> process == Recovering(ToVerify) && StageOf(j) !in files
      ensures r == Injected <==> r in {Done, Injected} && fault == Some(AfterUnstage) && StageOf(j) in old(files)
      ensures r == Broken ==> troubles > old(troubles) && process == Recovering(Removing)
      ensures r != Raised && (r == Killed ==> budget == 0)
    {
      var present := StageOf(j) in files;
      r := Done;
      Record(Advance, Now());
      if present {
        r := RemoveTree(StageOf(j));
        if r == Done && fault == Some(AfterUnstage) {
          r := Injected;
        }
      }
    }

    /** The last checks, and the journal write that ends the rollback. */
    method Verify(j: Journal, fault: Option<Checkpoint>) returns (r: Effect, refusal: Refusal)
      requires Valid() && process == Recovering(ToVerify) && journal == Some(j)
      modifies `journal, `budget, `next, `troubles, `trace, `process, `issued
      ensures Valid() && Extends(old(trace), trace) && old(troubles) <= troubles && issued == old(issued)
      ensures r == Done || r == Injected ==> process.Idle? && journal == Some(j.(phase := RollbackValidated))
      ensures r == Injected <==> fault == Some(AfterPhase(RollbackValidated)) && r in {Done, Injected}
      ensures r == Broken ==> troubles > old(troubles) && (process.Recovering? || process.Idle?)
      ensures r == Raised ==> process == Refused(refusal)
      ensures r == Killed ==> budget == 0
    {
      var active := Bundle(j.active);
      r, refusal := Raised, ValidationFailed;
      if j.original.None? && active in files {
        refusal := AbsenceNotRestored;
        Record(Advance, Now());
      } else if j.original.Some? && Get(files, active) != j.original {
        Record(Advance, Now());
      } else {
        r := SetPhase(RollbackValidated, fault);
      }
    }

    /** What follows the restored backup: the stage goes, and the result is verified. */
    method CloseRollback(j: Journal, fault: Option<Checkpoint>) returns (r: Effect, refusal: Refusal)
      requires Valid() && process == Recovering(ToUnstage) && journal == Some(j)
      modifies `files, `journal, `budget, `next, `troubles, `trace, `process, `issued
      ensures Valid() && Extends(old(trace), trace) && old(troubles) <= troubles && issued == old(issued)
      ensures r == Raised ==> process == Refused(refusal)
      ensures r == Killed ==> budget == 0
      ensures r == Injected ==> fault.Some? && (process.Recovering? || process.Idle?)
      ensures r == Broken ==> troubles > old(troubles) && (process.Recovering? || process.Idle?)
      ensures r == Done ==> fault != Some(AfterPhase(RollbackValidated))
      ensures r == Done && fault == Some(AfterUnstage) ==> StageOf(j) !in old(files)
      ensures r == Done ==> process.Idle? && journal == Some(j.(phase := RollbackValidated))
    {
      hide Valid, Run, Step;
      refusal := RejectedExists;
      r := Unstage(j, fault);
      if r == Done {
        r, refusal := Verify(j, fault);
      }
    }

    /** recover from its first journal write on. */
    method RollBack(fault: Option<Checkpoint>) returns (r: Effect, refusal: Refusal)
      requires Valid() && process == Recovering(Begin) && journal.Some? && !journal.value.Reconciled()
      modifies `files, `journal, `budget, `next, `troubles, `trace, `process, `issued
      ensures Valid() && Extends(old(trace), trace) && old(troubles) <= troubles && issued == old(issued)
      ensures r == Raised ==> process == Refused(refusal)
      ensures r == Killed ==> budget == 0
      ensures r == Injected ==> fault.Some? && (process.Recovering? || process.Idle?)
      ensures r == Broken ==> troubles > old(troubles) && (process.Recovering? || process.Idle?)
      ensures r == Done ==> Spares(fault, old(journal).value, old(files))
      ensures r == Done ==> process.Idle? && journal == Some(old(journal).value.(phase := RollbackValidated))
    {
      hide Valid, Run, Step, StepRecover;
      refusal := RejectedExists;
      RollbackBegins(Now());
      r := SetPhase(Rollback, fault);
      if r != Done {
        return;
      }
      var j := journal.value;
      r, refusal := Reject(j, fault);
      if r == Done {
        r, refusal := Restore(j, fault);
      }
      if r == Done {
        r, refusal := CloseRollback(j, fault);
      }
    }

    /** What recover does with a journal, or without one. */
    method RunRecover(fault: Option<Checkpoint>) returns (r: RecoverResult)
      requires Valid() && process == Recovering(Begin)
      modifies `files, `journal, `budget, `next, `troubles, `trace, `process, `issued
      ensures Valid() && Extends(old(trace), trace) && old(troubles) <= troubles && issued == old(issued)
      ensures r.RefusedTo? ==> process == Refused(r.refusal)
      ensures r.RecoverKilled? ==> budget == 0
      ensures r.Interrupted? ==> (fault.Some? || troubles > old(troubles)) && process.Idle?
      ensures !r.RefusedTo? && !r.RecoverKilled? && !r.Interrupted? ==> process.Idle? && Settled(OnDisk())
      ensures Tells(r, old(journal), journal)
      ensures r.RolledBack? ==> Spares(fault, old(journal).value, old(files))
    {
      hide Run;
      if journal.None? {
        Record(Advance, Now());
        return NoPendingTransaction;
      }
      var j := journal.value;
      if j.Reconciled() {
        Record(Advance, Now());
        return if j.phase == Committed then AlreadyCommitted(j.op) else AlreadyRolledBack(j.op);
      }
      var effect, refusal := RollBack(fault);
      match effect {
        case Done => r := RolledBack(j.op, j.original);
        case Raised => r := RefusedTo(refusal);
        case Killed => r := RecoverKilled;
        case _ =>
          Record(Raise, Now());
          r := Interrupted;
      }
    }

    /**
     The recover command. From any disk that installs and crashes can leave it never refuses, it keeps
     every register, and unless it is killed or interrupted, by an injected failure or one of the file system,
     it reconciles the journal.
     */
    method Recover(fault: Option<Checkpoint>) returns (r: RecoverResult)
      requires Valid() && process.Idle?
      modifies `files, `journal, `budget, `next, `troubles, `trace, `process, `issued
      ensures Valid() && process.Idle? && Extends(old(trace), trace) && old(troubles) <= troubles
      ensures r.RecoverKilled? ==> budget == 0
      ensures r.Interrupted? ==> fault.Some? || troubles > old(troubles)
      ensures !r.RefusedTo? && !r.RecoverKilled? && !r.Interrupted? ==> Settled(OnDisk())
      ensures Tells(r, old(journal), journal)
      ensures r.RolledBack? ==> Spares(fault, old(journal).value, old(files))
      ensures old(Inv(Now())) ==>
        && Inv(Now()) && !r.RefusedTo?
        && forall name :: Register(OnDisk(), name) == old(Register(OnDisk(), name))
    {
      ghost var entry := Now();
      Record(StartRecover, entry);
      r := RunRecover(fault);
      if Inv(entry) {
        RunSince(start, old(trace), trace);
        RecoverRunKeeps(entry, trace[|old(trace)|..]);
      }
      End();
    }

    // ----- install

    /** The first half of the try block: the candidate is copied beside the active bundle. */
    method StageCandidate(j: Journal, fault: Option<Checkpoint>) returns (r: Effect)
      requires Valid() && process == Installing(ToPreflight) && journal == Some(j) && StillOf(j, journal)
      requires Get(files, j.candidate) == Some(j.candidateTree)
      modifies `files, `journal, `budget, `next, `troubles, `trace, `process, `issued
      ensures Valid() && Extends(old(trace), trace) && old(troubles) <= troubles && process.Installing?
      ensures r == Killed ==> budget == 0
      ensures r != Raised && (r == Injected ==> fault.Some?)
      ensures r == Broken ==> troubles > old(troubles)
      ensures r == Done ==> process == Installing(ToBackup) && journal == Some(j.(phase := Staged))
      ensures r == Done ==> files == old(files)[StageOf(j) := j.candidateTree]
      ensures r == Done ==> !Asks(fault, {Preflight, Staged})
      ensures StillOf(j, journal)
    {
      r := SetPhase(Preflight, fault);
      if r != Done {
        return;
      }
      r := CopyTree(files[j.candidate]);
      if r != Done {
        return;
      }
      if Get(files, StageOf(j)) != Some(j.candidateTree) {
        return Raised;
      }
      r := SetPhase(Staged, fault);
    }

    method MoveOut(j: Journal, fault: Option<Checkpoint>) returns (r: Effect)
      requires Valid() && process == Installing(ToBackup) && journal == Some(j) && StillOf(j, journal)
      requires Get(files, Bundle(j.active)) == j.original
      modifies `files, `journal, `budget, `next, `troubles, `trace, `process, `issued
      ensures Valid() && Extends(old(trace), trace) && old(troubles) <= troubles && process.Installing?
      ensures r == Killed ==> budget == 0
      ensures r == Raised ==> old(OnDisk()).Taken(Baseline(j.op))
      ensures r == Injected ==> fault.Some?
      ensures r == Broken ==> troubles > old(troubles)
      ensures r == Done ==> process == Installing(ToReplace) && journal == Some(j.(phase := BackupMoved))
      ensures r == Done ==> Bundle(j.active) !in files && Get(files, StageOf(j)) == old(Get(files, StageOf(j)))
      ensures r == Done ==> !Asks(fault, {BackupMoved})
      ensures StillOf(j, journal)
    {
      hide Run;
      if j.original.Some? {
        r := Rename(Bundle(j.active), Baseline(j.op));
        if r != Done {
          return;
        }
      } else {
        Record(Advance, Now());
      }
      r := SetPhase(BackupMoved, fault);
    }

    method MoveIn(j: Journal, fault: Option<Checkpoint>) returns (r: Effect)
      requires Valid() && process == Installing(ToReplace) && journal == Some(j) && StillOf(j, journal)
      requires Bundle(j.active) !in files && Get(files, StageOf(j)) == Some(j.candidateTree)
      modifies `files, `journal, `budget, `next, `troubles, `trace, `process, `issued
      ensures Valid() && Extends(old(trace), trace) && old(troubles) <= troubles && process.Installing?
      ensures r == Killed ==> budget == 0
      ensures r != Raised && (r == Injected ==> fault.Some?)
      ensures r == Broken ==> troubles > old(troubles)
      ensures r == Done ==> process == Installing(ToValidated) && journal == Some(j.(phase := Phase.Replaced))
      ensures r == Done ==> Get(files, Bundle(j.active)) == Some(j.candidateTree)
      ensures r == Done ==> !Asks(fault, {Phase.Replaced})
      ensures StillOf(j, journal)
    {
      hide Run;
      r := Rename(StageOf(j), Bundle(j.active));
      if r != Done {
        return;
      }
      r := SetPhase(Phase.Replaced, fault);
    }

    /** The second half: the original is moved to its backup and the stage takes its place. */
    method SwapIn(j: Journal, fault: Option<Checkpoint>) returns (r: Effect)
      requires Valid() && process == Installing(ToBackup) && journal == Some(j) && StillOf(j, journal)
      requires Get(files, Bundle(j.active)) == j.original
      requires Get(files, StageOf(j)) == Some(j.candidateTree)
      modifies `files, `journal, `budget, `next, `troubles, `trace, `process, `issued
      ensures Valid() && Extends(old(trace), trace) && old(troubles) <= troubles && process.Installing?
      ensures r == Killed ==> budget == 0
      ensures r == Raised ==> old(OnDisk()).Taken(Baseline(j.op))
      ensures r == Injected ==> fault.Some?
      ensures r == Broken ==> troubles > old(troubles)
      ensures r == Done ==> process == Installing(ToValidated) && journal == Some(j.(phase := Phase.Replaced))
      ensures r == Done ==> Get(files, Bundle(j.active)) == Some(j.candidateTree)
      ensures r == Done ==> !Asks(fault, {BackupMoved, Phase.Replaced})
      ensures StillOf(j, journal)
    {
      hide Run;
      r := MoveOut(j, fault);
      if r == Done {
        r := MoveIn(journal.value, fault);
      }
    }

    /** The journal write that commits, and the return from it. */
    method Commit(j: Journal, fault: Option<Checkpoint>) returns (r: Effect)
      requires Valid() && process == Installing(ToCommitted) && journal == Some(j) && StillOf(j, journal)
      modifies `files, `journal, `budget, `next, `troubles, `trace, `process, `issued
      ensures Valid() && Extends(old(trace), trace) && old(troubles) <= troubles && files == old(files)
      ensures r != Raised && (r == Killed ==> budget == 0 && process.Installing?)
      ensures r == Injected ==> process.Installing? && fault == Some(AfterPhase(Committed))
      ensures r == Broken ==> process.Installing? && troubles > old(troubles)
      ensures r == Done ==> process.Idle? && journal == Some(j.(phase := Committed))
      ensures r == Done ==> !Asks(fault, {Committed})
      ensures StillOf(j, journal)
    {
      hide Run;
      r := SetPhase(Committed, fault);
      if r == Done {
        Record(Advance, Now());
      }
    }

    method Confirm(j: Journal, fault: Option<Checkpoint>) returns (r: Effect)
      requires Valid() && process == Installing(ToValidated) && journal == Some(j) && StillOf(j, journal)
      modifies `files, `journal, `budget, `next, `troubles, `trace, `process, `issued
      ensures Valid() && Extends(old(trace), trace) && old(troubles) <= troubles && files == old(files)
      ensures r == Killed ==> budget == 0 && process.Installing?
      ensures r != Done ==> process.Installing?
      ensures r == Broken ==> troubles > old(troubles)
      ensures r == Raised ==> Get(files, Bundle(j.active)) != Some(j.candidateTree)
      ensures r == Injected ==> fault.Some?
      ensures r == Done ==> process.Idle? && journal == Some(j.(phase := Committed))
      ensures r == Done ==> !Asks(fault, {Validated, Committed})
      ensures StillOf(j, journal)
    {
      hide Run;
      if Get(files, Bundle(j.active)) != Some(j.candidateTree) {
        return Raised;
      }
      r := SetPhase(Validated, fault);
      if r == Done {
        r := Commit(journal.value, fault);
      }
    }

    method Transact(j: Journal, fault: Option<Checkpoint>) returns (r: Effect)
      requires Valid() && process == Installing(ToPreflight) && journal == Some(j) && StillOf(j, journal)
      requires Get(files, j.candidate) == Some(j.candidateTree)
      requires Get(files, Bundle(j.active)) == j.original
      modifies `files, `journal, `budget, `next, `troubles, `trace, `process, `issued
      ensures Valid() && Extends(old(trace), trace) && old(troubles) <= troubles
      ensures r == Killed ==> budget == 0 && process.Installing?
      ensures r == Raised ==> process.Installing? && old(OnDisk()).Taken(Baseline(j.op))
      ensures r == Injected ==> process.Installing? && fault.Some?
      ensures r == Broken ==> process.Installing? && troubles > old(troubles)
      ensures r == Done ==> process.Idle? && journal == Some(j.(phase := Committed))
      ensures r == Done ==> !Asks(fault, INSTALL_PHASES)
      ensures StillOf(j, journal)
    {
      r := StageCandidate(j, fault);
      if r == Done {
        r := SwapIn(journal.value, fault);
      }
      if r == Done {
        r := Confirm(journal.value, fault);
      }
    }

    /** An earlier journal that is reconciled is archived under its own identity. */
    method ArchiveJournal(candidate: Path, active: string) returns (r: Effect)
      requires Valid() && process.Idle?
      requires candidate != Bundle(active) && candidate in files
      requires journal.Some? ==> journal.value.Reconciled() && journal.value.op !in history
      modifies this
      ensures Valid() && start == old(start)
      ensures r in {Done, Broken, Killed} && old(troubles) <= troubles
      ensures r == Killed ==> budget == 0
      ensures r == Broken ==> troubles > old(troubles)
      ensures r != Done ==> Now() == old(Now()) && trace == old(trace)
      ensures r == Done ==> Now() == Step(old(Now()), StartInstall(candidate, active))
      ensures r == Done ==> trace == old(trace) + [StartInstall(candidate, active)]
    {
      ghost var before := Now();
      if journal.Some? {
        if budget == 0 {
          return Killed;
        }
        var answer := Attempt();
        if !answer.Fine? {
          return Broken;
        }
        budget := budget - 1;
        history := history[journal.value.op := journal.value];
        journal := None;
      }
      Record(StartInstall(candidate, active), before);
      r := Done;
    }

    /** The except branch: recover runs, and the exception goes on. */
    method Abort() returns (recovery: RecoverResult)
      requires Valid() && process.Installing?
      modifies `files, `journal, `budget, `next, `troubles, `trace, `process, `issued
      ensures Valid() && Extends(old(trace), trace) && old(troubles) <= troubles
      ensures recovery.RecoverKilled? ==> budget == 0
      ensures recovery.RefusedTo? ==> process.Refused?
      ensures Tells(recovery, old(journal), journal)
      ensures recovery.Interrupted? ==> troubles > old(troubles)
    {
      hide Run;
      Record(Raise, Now());
      recovery := RunRecover(None);
    }

    /** The journal of a new operation, written before the try block. */
    method OpenOperation(candidate: Path, active: string, op: OpId) returns (r: Effect, j: Journal)
      requires Valid() && journal.None? && op !in issued && candidate in files
      requires process == Checked(candidate, files[candidate], active)
      modifies `journal, `budget, `next, `troubles, `trace, `process, `issued
      ensures Valid() && old(trace) <= trace && NoNewInstall(trace[|old(trace)|..]) && old(troubles) <= troubles
      ensures r in {Done, Broken, Killed} && (r == Killed ==> budget == 0)
      ensures r == Broken ==> troubles > old(troubles)
      ensures r == Done ==> process == Installing(ToPreflight) && journal == Some(j)
      ensures r == Done ==> j == Journal(op, Created, candidate, files[candidate], active, Get(files, Bundle(active)))
    {
      hide Run;
      j := Journal(op, Created, candidate, files[candidate], active, Get(files, Bundle(active)));
      if budget == 0 {
        return Killed, j;
      }
      var answer := Attempt();
      if answer.FailsBefore? {
        return Broken, j;
      }
      ghost var before := Now();
      budget := budget - 1;
      journal := Some(j);
      Record(OpenJournal(op), before);
      r := if answer.FailsAfter? then Broken else Done;
    }

    /** Opens the journal and runs the try block; an exception in it runs recover. */
    method Execute(candidate: Path, active: string, op: OpId, fault: Option<Checkpoint>) returns (r: InstallResult)
      requires Valid() && journal.None? && op !in issued && candidate in files
      requires process == Checked(candidate, files[candidate], active)
      modifies `files, `journal, `budget, `next, `troubles, `trace, `process, `issued
      ensures Valid() && old(trace) <= trace && NoNewInstall(trace[|old(trace)|..])
      ensures old(troubles) <= troubles && (r.InstallKilled? ==> budget == 0)
      ensures r.Errored? ==> files == old(files)
      ensures Reported(r, OnDisk(), process, op, old(Get(files, Bundle(active))), fault.Some?, troubles > old(troubles))
      ensures r.Failed? ==> fault.Some? || troubles > old(troubles) || old(OnDisk()).Taken(Baseline(op))
      ensures r.Installed? ==> !Asks(fault, INSTALL_PHASES)
    {
      hide Run, Step, Now;
      var begun, j := OpenOperation(candidate, active, op);
      if begun != Done {
        return if begun == Killed then InstallKilled else Errored;
      }
      var effect := Transact(j, fault);
      match effect {
        case Done => r := Installed(op);
        case Killed => r := InstallKilled;
        case _ =>
          var recovery := Abort();
          r := if recovery.RecoverKilled? then InstallKilled else Failed(recovery);
      }
    }

    /** install once its checks have passed. */
    method Proceed(candidate: Path, active: string, op: OpId, fault: Option<Checkpoint>) returns (r: InstallResult)
      requires Valid() && process.Idle? && op !in issued
      requires candidate != Bundle(active) && candidate in files
      requires journal.Some? ==> journal.value.Reconciled() && journal.value.op !in history
      modifies this
      ensures Valid() && process.Idle? && start == old(start) && old(trace) <= trace && !r.TurnedAway?
      ensures r.InstallKilled? ==> budget == 0
      ensures old(troubles) <= troubles && (r.Errored? ==> troubles > old(troubles) && files == old(files))
      ensures old(Inv(Now())) && old(Get(files, Bundle(active))) != Some(old(files)[candidate]) ==>
                Promise(old(Now()), Now(), candidate, active, op, r, fault.Some?, troubles > old(troubles))
      ensures r.Installed? ==> !Asks(fault, INSTALL_PHASES)
    {
      hide Run, Inv, Register, Promise, NoNewInstall, Step;
      ghost var entry := Now();
      var archive := ArchiveJournal(candidate, active);
      if archive != Done {
        r := if archive == Killed then InstallKilled else Errored;
        if Inv(entry) { NotBegun(entry, candidate, active, op, r, fault.Some?, troubles > old(troubles)); }
        End();
        return;
      }
      ghost var begun := trace;
      InstallBegins(entry, candidate, active);
      r := Execute(candidate, active, op, fault);
      if Inv(entry) && entry.disk.Tree(Bundle(active)) != Some(entry.disk.files[candidate]) {
        RunSince(start, begun, trace);
        PromiseKept(entry, candidate, active, trace[|begun|..], op, r, fault.Some?, troubles > old(troubles));
      }
      End();
    }

    /**
     The install command, under the fresh identity `op`. With a candidate that differs from what it
     replaces, whatever happens leaves a disk from which recover works: a run that is not killed ends
     with the candidate active and the original in its backup, or, only after an injected failure or one of
     the file system, with every bundle as it was or, if recover met another failure, with a disk to recover.
     */
    method Install(candidate: Path, active: string, op: OpId, fault: Option<Checkpoint>) returns (r: InstallResult)
      requires Valid() && process.Idle? && op !in issued
      modifies this
      ensures Valid() && process.Idle? && start == old(start) && old(trace) <= trace
      ensures r.InstallKilled? ==> budget == 0
      ensures old(troubles) <= troubles && (r.Errored? ==> troubles > old(troubles) && files == old(files))
      ensures r.TurnedAway? ==> Now() == old(Now())
      ensures r.TurnedAway? <==>
        candidate == Bundle(active) || candidate !in old(files)
        || (old(journal).Some? && (!old(journal).value.Reconciled() || old(journal).value.op in old(history)))
      ensures old(Inv(Now())) && !r.TurnedAway? && old(Get(files, Bundle(active))) != Some(old(files)[candidate]) ==>
                Promise(old(Now()), Now(), candidate, active, op, r, fault.Some?, troubles > old(troubles))
      ensures r.Installed? && fault.Some? && fault.value.AfterPhase? ==>
        fault.value.phase !in {Preflight, Staged, BackupMoved, Phase.Replaced, Validated, Committed}
      ensures r.TurnedAway? ==>
        match r.rejection
        case UnsafePath => candidate == Bundle(active)
        case CandidateMissing => candidate !in old(files)
        case Unreconciled => old(journal).Some? && !old(journal).value.Reconciled()
        case HistoryIdentity =>
          old(journal).Some? && old(journal).value.Reconciled() && old(journal).value.op in old(history)
    {
      hide Run, Inv, Promise;
      if candidate == Bundle(active) {
        return TurnedAway(UnsafePath);
      }
      if candidate !in files {
        return TurnedAway(CandidateMissing);
      }
      if journal.Some? && !journal.value.Reconciled() {
        return TurnedAway(Unreconciled);
      }
      if journal.Some? && journal.value.op in history {
        return TurnedAway(HistoryIdentity);
      }
      r := Proceed(candidate, active, op, fault);
    }
  }
}
