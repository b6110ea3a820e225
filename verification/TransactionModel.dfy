/**
 The crash-recoverable bundle transaction of scripts/lifecycle-transaction.py as a small-step
 machine. One step is one durable effect: a rename, an atomic journal write, or one stage of the
 two operations that are not atomic, the copy of a tree and its removal. A crash may fall between
 any two steps, and an exception may be raised at any point of an install.
 */
module TransactionModel {
  import opened Wrappers

  type OpId = nat

  // A bundle is the map from relative file path to contents that tree_hash digests.
  type Tree = map<string, string>

  datatype Path =
    | Bundle(name: string)
    | Stage(active: string, op: OpId)
    | Baseline(op: OpId)
    | Rejected(op: OpId)
  {
    /** The operation whose private name this path is. */
    predicate BelongsTo(o: OpId) {
      !Bundle? && op == o
    }
  }

  datatype Phase =
    | Created | Preflight | Staged | BackupMoved | Replaced | Validated | Committed
    | Rollback | RollbackValidated

  datatype Journal = Journal(
    op: OpId,
    phase: Phase,
    candidate: Path,
    candidateTree: Tree,
    active: string,
    original: Option<Tree>)
  {
    /** Only these two phases let the next install begin. */
    predicate Reconciled() {
      phase == Committed || phase == RollbackValidated
    }

    /** The candidate differs from the bundle it replaces. */
    predicate Distinct() {
      original != Some(candidateTree)
    }
  }

  datatype Disk = Disk(
    files: map<Path, Tree>,
    journal: Option<Journal>,
    history: map<OpId, Journal>)
  {
    function Tree(p: Path): Option<Tree> {
      Get(files, p)
    }

    /** A rename of a directory replaces an empty one, and fails onto any other. */
    predicate Taken(p: Path) {
      p in files && files[p] != map[]
    }

    function Rename(source: Path, target: Path): Disk
      requires source in files
    {
      this.(files := (files - {source})[target := files[source]])
    }

    function Write(p: Path, tree: Tree): Disk {
      this.(files := files[p := tree])
    }

    function Remove(p: Path): Disk {
      this.(files := files - {p})
    }

    function SetPhase(phase: Phase): Disk
      requires journal.Some?
    {
      this.(journal := Some(journal.value.(phase := phase)))
    }
  }

  /** The next durable effect of a running install. */
  datatype InstallPoint =
    | ToPreflight | ToCopy | Copying | ToStaged | ToBackup | ToBackupMoved
    | ToReplace | ToReplaced | ToValidated | ToCommitted | Returning

  /** The next durable effect of a running recover. */
  datatype RecoverPoint =
    | Begin | ToReject | ToRestore | ToUnstage | Removing | ToVerify

  datatype Refusal =
    | HistoryExists | RejectedExists | UnexpectedActive | BaselineMismatch
    | ActiveOccupied | BaselineMissing | AbsenceNotRestored | ValidationFailed

  datatype Process =
    | Idle
    | Checked(candidate: Path, tree: Tree, active: string)
    | Installing(install: InstallPoint)
    | Recovering(recover: RecoverPoint)
    | Refused(refusal: Refusal)

  datatype World = World(disk: Disk, issued: set<OpId>, process: Process)

  datatype Event =
    | StartInstall(candidate: Path, active: string)
    | OpenJournal(op: OpId)    // the journal is created under a fresh identity
    | Advance                  // the next deterministic effect
    | CopyTo(copied: Tree)     // a half-done copytree leaves any contents
    | FinishCopy
    | RemoveTo(left: Tree)     // a half-done rmtree leaves any contents
    | StartRecover
    | Raise                    // an exception, injected or not
    | Crash

  /** An exception inside the try block of install runs recover; anywhere else it ends the process. */
  function StepRaise(w: World): World {
    if w.process.Installing? then w.(process := Recovering(Begin)) else w.(process := Idle)
  }

  function StepStartInstall(w: World, candidate: Path, active: string): World {
    if !w.process.Idle? || candidate == Bundle(active) || candidate !in w.disk.files then w
    else if w.disk.journal.None? then
      w.(process := Checked(candidate, w.disk.files[candidate], active))
    else
      var j := w.disk.journal.value;
      if !j.Reconciled() then w
      else if j.op in w.disk.history then w.(process := Refused(HistoryExists))
      else
        World(w.disk.(journal := None, history := w.disk.history[j.op := j]), w.issued,
              Checked(candidate, w.disk.files[candidate], active))
  }

  function StepOpenJournal(w: World, op: OpId): World {
    if !w.process.Checked? || op in w.issued then w
    else
      var p := w.process;
      var j := Journal(op, Created, p.candidate, p.tree, p.active, w.disk.Tree(Bundle(p.active)));
      World(w.disk.(journal := Some(j)), w.issued + {op}, Installing(ToPreflight))
  }

  function StepInstall(w: World, at: InstallPoint): World
    requires w.disk.journal.Some?
  {
    var j := w.disk.journal.value;
    var active, stage, backup := Bundle(j.active), Stage(j.active, j.op), Baseline(j.op);
    match at
    case ToPreflight => w.(disk := w.disk.SetPhase(Preflight), process := Installing(ToCopy))
    case ToCopy => w.(disk := w.disk.Write(stage, map[]), process := Installing(Copying))
    case Copying => w.(process := Installing(ToStaged))
    case ToStaged =>
      if w.disk.Tree(stage) != Some(j.candidateTree) then StepRaise(w)
      else w.(disk := w.disk.SetPhase(Staged), process := Installing(ToBackup))
    case ToBackup =>
      if j.original.None? then w.(process := Installing(ToBackupMoved))
      else if active !in w.disk.files || w.disk.Taken(backup) then StepRaise(w)
      else w.(disk := w.disk.Rename(active, backup), process := Installing(ToBackupMoved))
    case ToBackupMoved => w.(disk := w.disk.SetPhase(BackupMoved), process := Installing(ToReplace))
    case ToReplace =>
      if stage !in w.disk.files || w.disk.Taken(active) then StepRaise(w)
      else w.(disk := w.disk.Rename(stage, active), process := Installing(ToReplaced))
    case ToReplaced => w.(disk := w.disk.SetPhase(Replaced), process := Installing(ToValidated))
    case ToValidated =>
      if w.disk.Tree(active) != Some(j.candidateTree) then StepRaise(w)
      else w.(disk := w.disk.SetPhase(Validated), process := Installing(ToCommitted))
    case ToCommitted => w.(disk := w.disk.SetPhase(Committed), process := Installing(Returning))
    case Returning => w.(process := Idle)
  }

  function StepRecover(w: World, at: RecoverPoint): World {
    if w.disk.journal.None? then w.(process := Idle)
    else
      var j := w.disk.journal.value;
      var active, stage := Bundle(j.active), Stage(j.active, j.op);
      var backup, rejected := Baseline(j.op), Rejected(j.op);
      var files := w.disk.files;
      match at
      case Begin =>
        if j.Reconciled() then w.(process := Idle)
        else w.(disk := w.disk.SetPhase(Rollback), process := Recovering(ToReject))
      case ToReject =>
        if w.disk.Tree(active) == Some(j.candidateTree) then
          if rejected in files then w.(process := Refused(RejectedExists))
          else w.(disk := w.disk.Rename(active, rejected), process := Recovering(ToRestore))
        else if active in files && j.original.None? then w.(process := Refused(UnexpectedActive))
        else w.(process := Recovering(ToRestore))
      case ToRestore =>
        if backup in files then
          if Some(files[backup]) != j.original then w.(process := Refused(BaselineMismatch))
          else if active in files then w.(process := Refused(ActiveOccupied))
          else w.(disk := w.disk.Rename(backup, active), process := Recovering(ToUnstage))
        else if j.original.Some? && w.disk.Tree(active) != j.original then
          w.(process := Refused(BaselineMissing))
        else w.(process := Recovering(ToUnstage))
      case ToUnstage => w.(process := Recovering(if stage in files then Removing else ToVerify))
      case Removing => w.(disk := w.disk.Remove(stage), process := Recovering(ToVerify))
      case ToVerify =>
        if j.original.None? && active in files then w.(process := Refused(AbsenceNotRestored))
        else if j.original.Some? && w.disk.Tree(active) != j.original then
          w.(process := Refused(ValidationFailed))
        else w.(disk := w.disk.SetPhase(RollbackValidated), process := Idle)
  }

  function Step(w: World, e: Event): World {
    match e
    case StartInstall(candidate, active) => StepStartInstall(w, candidate, active)
    case OpenJournal(op) => StepOpenJournal(w, op)
    case Advance =>
      (match w.process
       case Installing(at) => if w.disk.journal.Some? then StepInstall(w, at) else w
       case Recovering(at) => StepRecover(w, at)
       case _ => w)
    case CopyTo(copied) =>
      if w.process == Installing(Copying) && w.disk.journal.Some? then
        var j := w.disk.journal.value;
        w.(disk := w.disk.Write(Stage(j.active, j.op), copied))
      else w
    case FinishCopy =>
      if w.process == Installing(Copying) then w.(process := Installing(ToStaged)) else w
    case RemoveTo(left) =>
      if w.process == Recovering(Removing) && w.disk.journal.Some? then
        var j := w.disk.journal.value;
        w.(disk := w.disk.Write(Stage(j.active, j.op), left))
      else w
    case StartRecover => if w.process.Idle? then w.(process := Recovering(Begin)) else w
    case Raise => StepRaise(w)
    case Crash => w.(process := Idle)
  }

  function Run(w: World, events: seq<Event>): World
    decreases |events|
  {
    if events == [] then w else Run(Step(w, events[0]), events[1..])
  }

  lemma {:induction false} RunConcat(w: World, first: seq<Event>, second: seq<Event>)
    ensures Run(w, first + second) == Run(Run(w, first), second)
    decreases |first|
  {
    if first == [] {
      assert first + second == second;
    } else {
      assert (first + second)[1..] == first[1..] + second;
      RunConcat(Step(w, first[0]), first[1..], second);
    }
  }

  /** A disk before the first install: user bundles only, no journal, no history. */
  ghost predicate Initial(w: World) {
    && w.process.Idle?
    && w.disk.journal.None?
    && w.disk.history == map[]
    && w.issued == {}
    && forall p :: p in w.disk.files ==> p.Bundle?
  }
}
