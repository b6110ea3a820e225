/**
 Every schedule of installs, crashes and recoveries keeps the invariant below, never reaches a
 refusal, and moves the active bundle only as an atomic register would.
 */
module TransactionProofs {
  import opened Wrappers
  import opened TransactionModel

  // ----- The invariant

  /** Active and backup, when the journal's operation is open: the original is in exactly one of them. */
  ghost predicate Located(d: Disk, j: Journal) {
    var active, backup := d.Tree(Bundle(j.active)), d.Tree(Baseline(j.op));
    var stage, rejected := d.Tree(Stage(j.active, j.op)), d.Tree(Rejected(j.op));
    && j.Distinct()
    && (|| (active == j.original && backup == None)
        || (active == None && backup == j.original)
        || (active == Some(j.candidateTree) && backup == j.original))
    && (active == Some(j.candidateTree) ==> stage == None && rejected == None)
    && (rejected != None ==> rejected == Some(j.candidateTree) && stage == None)
  }

  /** Nothing of the operation is in place any more, or not yet. */
  ghost predicate Untouched(d: Disk, j: Journal) {
    && d.Tree(Bundle(j.active)) == j.original
    && d.Tree(Baseline(j.op)) == None
  }

  ghost predicate InPlace(d: Disk, j: Journal) {
    && d.Tree(Bundle(j.active)) == Some(j.candidateTree)
    && d.Tree(Baseline(j.op)) == j.original
    && d.Tree(Stage(j.active, j.op)) == None
    && d.Tree(Rejected(j.op)) == None
  }

  /** Where the trees are once an install has reached a program point. */
  ghost predicate InstallShape(d: Disk, j: Journal, at: InstallPoint) {
    var stage := d.Tree(Stage(j.active, j.op));
    && d.Tree(Rejected(j.op)) == None
    && match at
       case ToPreflight => Untouched(d, j) && stage == None
       case ToCopy => Untouched(d, j) && stage == None
       case Copying => Untouched(d, j)
       case ToStaged => Untouched(d, j)
       case ToBackup => Untouched(d, j) && stage == Some(j.candidateTree)
       case ToBackupMoved =>
         d.Tree(Bundle(j.active)) == None && d.Tree(Baseline(j.op)) == j.original && stage == Some(j.candidateTree)
       case ToReplace =>
         d.Tree(Bundle(j.active)) == None && d.Tree(Baseline(j.op)) == j.original && stage == Some(j.candidateTree)
       case ToReplaced => InPlace(d, j)
       case ToValidated => InPlace(d, j)
       case ToCommitted => InPlace(d, j)
       case Returning => InPlace(d, j)
  }

  ghost predicate RecoverShape(d: Disk, j: Journal, at: RecoverPoint) {
    match at
    case Begin => true
    case ToReject => true
    case ToRestore => d.Tree(Bundle(j.active)) != Some(j.candidateTree)
    case ToUnstage => Untouched(d, j)
    case Removing => Untouched(d, j) && d.Tree(Rejected(j.op)) == None
    case ToVerify => Untouched(d, j) && d.Tree(Stage(j.active, j.op)) == None
  }

  ghost predicate JournalShape(d: Disk, j: Journal) {
    match j.phase
    case Committed => InPlace(d, j)
    case RollbackValidated => Untouched(d, j) && d.Tree(Stage(j.active, j.op)) == None
    case _ => Located(d, j)
  }

  /** An archived journal is final, sits under its own identity, and its displaced bundle is kept. */
  ghost predicate Archived(d: Disk, op: OpId, j: Journal) {
    && j.op == op
    && j.Reconciled()
    && (j.phase == Committed ==> d.Tree(Baseline(op)) == j.original)
  }

  ghost predicate ProcessShape(w: World) {
    match w.process
    case Idle => true
    case Checked(candidate, tree, active) => w.disk.journal.None?
    case Installing(at) =>
      && w.disk.journal.Some?
      && InstallShape(w.disk, w.disk.journal.value, at)
      && (at == Returning <==> w.disk.journal.value.phase == Committed)
      && w.disk.journal.value.phase != RollbackValidated
    case Recovering(at) =>
      at != Begin ==>
        && w.disk.journal.Some?
        && w.disk.journal.value.phase == Rollback
        && RecoverShape(w.disk, w.disk.journal.value, at)
    case Refused(_) => false
  }

  ghost predicate Inv(w: World) {
    && ProcessShape(w)
    // Private names belong to operations that were issued, and no stage outlives its operation.
    && (forall p, o :: p in w.disk.files && p.BelongsTo(o) ==> o in w.issued)
    && (forall active, op :: Stage(active, op) in w.disk.files ==>
          w.disk.journal.Some? && w.disk.journal.value.op == op && w.disk.journal.value.active == active)
    // Every backup still held belongs to a committed operation or to the open one.
    && (forall op :: Baseline(op) in w.disk.files ==>
          || (op in w.disk.history && w.disk.history[op].phase == Committed)
          || (w.disk.journal.Some? && w.disk.journal.value.op == op))
    // No journal is lost: an issued operation is archived or is the current one.
    && (forall op :: op in w.issued <==>
          op in w.disk.history || (w.disk.journal.Some? && w.disk.journal.value.op == op))
    && (forall op :: op in w.disk.history ==> Archived(w.disk, op, w.disk.history[op]))
    && (w.disk.journal.Some? ==>
          var j := w.disk.journal.value;
          j.op !in w.disk.history && JournalShape(w.disk, j))
  }

  /** The one thing an installer must check first: that the candidate is not what is active already. */
  predicate OpensDistinct(w: World, e: Event) {
    e.OpenJournal? && w.process.Checked? ==>
      w.disk.Tree(Bundle(w.process.active)) != Some(w.process.tree)
  }

  ghost predicate DistinctRun(w: World, events: seq<Event>)
    decreases |events|
  {
    events == [] || (OpensDistinct(w, events[0]) && DistinctRun(Step(w, events[0]), events[1..]))
  }

  // ----- Every step keeps the invariant

  lemma InitialInv(w: World)
    requires Initial(w)
    ensures Inv(w)
  {
  }

  lemma StartKeepsInv(w: World, candidate: Path, active: string)
    requires Inv(w)
    ensures Inv(StepStartInstall(w, candidate, active))
  {
  }

  lemma OpenKeepsInv(w: World, op: OpId)
    requires Inv(w) && OpensDistinct(w, OpenJournal(op))
    ensures Inv(StepOpenJournal(w, op))
  {
  }

  /** A half-done copy or removal only changes the contents of the open operation's stage. */
  lemma StageKeepsInv(w: World, e: Event)
    requires Inv(w) && (e.CopyTo? || e.RemoveTo?)
    ensures Inv(Step(w, e))
  {
  }

  /** The journal writes between the effects on bundles. */
  lemma PhaseKeepsInv(w: World, at: InstallPoint)
    requires at in {ToPreflight, ToBackupMoved, ToReplaced}
    requires Inv(w) && w.process == Installing(at)
    ensures Inv(StepInstall(w, at))
  {
  }

  lemma IdleKeepsInv(w: World, at: InstallPoint)
    requires at == Copying || at == Returning
    requires Inv(w) && w.process == Installing(at)
    ensures Inv(StepInstall(w, at))
  {
  }

  lemma CopyKeepsInv(w: World)
    requires Inv(w) && w.process == Installing(ToCopy)
    ensures Inv(StepInstall(w, ToCopy))
  {
  }

  lemma CommitKeepsInv(w: World)
    requires Inv(w) && w.process == Installing(ToCommitted)
    ensures Inv(StepInstall(w, ToCommitted))
  {
  }

  lemma StagedKeepsInv(w: World)
    requires Inv(w) && w.process == Installing(ToStaged)
    ensures Inv(StepInstall(w, ToStaged))
  {
  }

  lemma ValidatedKeepsInv(w: World)
    requires Inv(w) && w.process == Installing(ToValidated)
    ensures Inv(StepInstall(w, ToValidated))
  {
  }

  lemma BackupKeepsInv(w: World)
    requires Inv(w) && w.process == Installing(ToBackup)
    ensures Inv(StepInstall(w, ToBackup))
  {
    hide RecoverShape;
  }

  lemma ReplaceKeepsInv(w: World)
    requires Inv(w) && w.process == Installing(ToReplace)
    ensures Inv(StepInstall(w, ToReplace))
  {
  }

  lemma InstallKeepsInv(w: World, at: InstallPoint)
    requires Inv(w) && w.process == Installing(at)
    ensures Inv(StepInstall(w, at))
  {
    hide StepInstall;
    match at
    case ToBackup => BackupKeepsInv(w);
    case ToReplace => ReplaceKeepsInv(w);
    case ToCopy => CopyKeepsInv(w);
    case ToCommitted => CommitKeepsInv(w);
    case ToStaged => StagedKeepsInv(w);
    case ToValidated => ValidatedKeepsInv(w);
    case Copying => IdleKeepsInv(w, at);
    case Returning => IdleKeepsInv(w, at);
    case _ => PhaseKeepsInv(w, at);
  }

  lemma EndsKeepInv(w: World, at: RecoverPoint)
    requires Inv(w) && w.process == Recovering(at) && (at.Begin? || at.ToVerify?)
    ensures Inv(StepRecover(w, at))
  {
  }

  lemma RemovalKeepsInv(w: World)
    requires Inv(w) && w.process == Recovering(Removing)
    ensures Inv(StepRecover(w, Removing))
  {
  }

  lemma RejectKeepsInv(w: World)
    requires Inv(w) && w.process == Recovering(ToReject)
    ensures Inv(StepRecover(w, ToReject))
  {
    hide InstallShape;
  }

  lemma RestoreKeepsInv(w: World)
    requires Inv(w) && w.process == Recovering(ToRestore)
    ensures Inv(StepRecover(w, ToRestore))
  {
    hide InstallShape;
  }

  lemma RecoverKeepsInv(w: World, at: RecoverPoint)
    requires Inv(w) && w.process == Recovering(at)
    ensures Inv(StepRecover(w, at))
  {
    match at
    case Begin => EndsKeepInv(w, at);
    case ToReject => RejectKeepsInv(w);
    case ToRestore => RestoreKeepsInv(w);
    case ToUnstage =>
    case Removing => RemovalKeepsInv(w);
    case ToVerify => EndsKeepInv(w, at);
  }

  lemma StepKeepsInv(w: World, e: Event)
    requires Inv(w) && OpensDistinct(w, e)
    ensures Inv(Step(w, e))
  {
    match e
    case Advance =>
      match w.process {
        case Installing(at) => InstallKeepsInv(w, at);
        case Recovering(at) => RecoverKeepsInv(w, at);
        case _ =>
      }
    case StartInstall(candidate, active) => StartKeepsInv(w, candidate, active);
    case OpenJournal(op) => OpenKeepsInv(w, op);
    case CopyTo(_) => StageKeepsInv(w, e);
    case RemoveTo(_) => StageKeepsInv(w, e);
    case _ =>
  }

  lemma {:induction false} RunKeepsInv(w: World, events: seq<Event>)
    requires Inv(w) && DistinctRun(w, events)
    ensures Inv(Run(w, events))
    decreases |events|
  {
    if events == [] {
    } else {
      StepKeepsInv(w, events[0]);
      RunKeepsInv(Step(w, events[0]), events[1..]);
    }
  }

  // ----- Refinement of an atomic register

  /** What a client may rely on: the bundle under a name, or the one a pending rollback will restore. */
  function Register(d: Disk, name: string): Option<Tree> {
    if d.journal.Some? && !d.journal.value.Reconciled() && d.journal.value.active == name
    then d.journal.value.original
    else d.Tree(Bundle(name))
  }

  datatype Write = Write(name: string, tree: Tree)

  /** A step commits when it is the journal write that makes the phase committed. */
  function CommitOf(before: Disk, after: Disk): Option<Write> {
    if && after.journal.Some? && after.journal.value.phase == Committed
       && !(before.journal.Some? && before.journal.value.phase == Committed)
    then Some(Write(after.journal.value.active, after.journal.value.candidateTree))
    else None
  }

  function Log(w: World, events: seq<Event>): seq<Write>
    decreases |events|
  {
    if events == [] then []
    else
      var next := Step(w, events[0]);
      (match CommitOf(w.disk, next.disk) case None => [] case Some(write) => [write]) + Log(next, events[1..])
  }

  function Apply(write: Option<Write>, name: string, previous: Option<Tree>): Option<Tree> {
    if write.Some? && write.value.name == name then Some(write.value.tree) else previous
  }

  function Replay(log: seq<Write>, name: string, start: Option<Tree>): Option<Tree> {
    if log == [] then start else Replay(log[1..], name, Apply(Some(log[0]), name, start))
  }

  lemma InstallRefinesRegister(w: World, at: InstallPoint, name: string)
    requires Inv(w) && w.process == Installing(at)
    ensures Register(StepInstall(w, at).disk, name)
         == Apply(CommitOf(w.disk, StepInstall(w, at).disk), name, Register(w.disk, name))
  {
  }

  lemma RecoverRefinesRegister(w: World, at: RecoverPoint, name: string)
    requires Inv(w) && w.process == Recovering(at)
    ensures CommitOf(w.disk, StepRecover(w, at).disk) == None
    ensures Register(StepRecover(w, at).disk, name) == Register(w.disk, name)
  {
  }

  lemma StepRefinesRegister(w: World, e: Event, name: string)
    requires Inv(w) && OpensDistinct(w, e)
    ensures Register(Step(w, e).disk, name)
         == Apply(CommitOf(w.disk, Step(w, e).disk), name, Register(w.disk, name))
  {
    match e
    case Advance =>
      match w.process {
        case Installing(at) => InstallRefinesRegister(w, at, name);
        case Recovering(at) => RecoverRefinesRegister(w, at, name);
        case _ =>
      }
    case StartInstall(candidate, active) =>
    case OpenJournal(op) =>
    case _ =>
  }

  /** Over any run the active bundles are a register holding the last committed candidate. */
  lemma {:induction false} RunRefinesRegister(w: World, events: seq<Event>, name: string)
    requires Inv(w) && DistinctRun(w, events)
    ensures Register(Run(w, events).disk, name) == Replay(Log(w, events), name, Register(w.disk, name))
    decreases |events|
  {
    if events == [] {
    } else {
      var next := Step(w, events[0]);
      StepKeepsInv(w, events[0]);
      StepRefinesRegister(w, events[0], name);
      RunRefinesRegister(next, events[1..], name);
      var write := CommitOf(w.disk, next.disk);
      if write.Some? {
        assert Log(w, events) == [write.value] + Log(next, events[1..]);
      } else {
        assert Log(w, events) == Log(next, events[1..]);
      }
    }
  }

  // ----- Recovery finishes

  ghost predicate Settled(d: Disk) {
    d.journal.None? || d.journal.value.Reconciled()
  }

  /** Each step of a recover in progress leads to a later one and leaves every register as it was. */
  lemma RecoverAdvances(w: World, at: RecoverPoint)
    requires Inv(w) && w.process == Recovering(at) && w.disk.journal.Some?
    ensures var next := StepRecover(w, at);
      && Inv(next) && next.disk.journal.Some?
      && (forall name :: Register(next.disk, name) == Register(w.disk, name))
      && match at
         case Begin => next.process == Recovering(ToReject) || (next.process.Idle? && Settled(next.disk))
         case ToReject => next.process == Recovering(ToRestore)
         case ToRestore => next.process == Recovering(ToUnstage)
         case ToUnstage => next.process == Recovering(Removing) || next.process == Recovering(ToVerify)
         case Removing => next.process == Recovering(ToVerify)
         case ToVerify => next.process.Idle? && Settled(next.disk)
  {
    RecoverKeepsInv(w, at);
    forall name {
      RecoverRefinesRegister(w, at, name);
    }
  }

  ghost function Remaining(w: World): nat {
    match w.process
    case Recovering(Begin) => 6
    case Recovering(ToReject) => 5
    case Recovering(ToRestore) => 4
    case Recovering(ToUnstage) => 3
    case Recovering(Removing) => 2
    case Recovering(ToVerify) => 1
    case _ => 0
  }

  lemma {:induction false} AdvancesComplete(w: World, n: nat)
    requires Inv(w) && w.disk.journal.Some? && Remaining(w) <= n
    requires w.process.Recovering? || (w.process.Idle? && Settled(w.disk))
    ensures var done := Run(w, seq(n, _ => Advance));
      && Inv(done) && done.process.Idle? && Settled(done.disk)
      && forall name :: done.disk.Tree(Bundle(name)) == Register(w.disk, name)
    decreases n
  {
    var events := seq(n, _ => Advance);
    if n == 0 {
    } else {
      assert events[1..] == seq(n - 1, _ => Advance);
      if w.process.Recovering? {
        RecoverAdvances(w, w.process.recover);
      }
      AdvancesComplete(Step(w, Advance), n - 1);
    }
  }

  lemma {:induction false} AdvanceIdle(w: World, n: nat)
    requires w.process.Idle?
    ensures Run(w, seq(n, _ => Advance)) == w
    decreases n
  {
    if n == 0 {
    } else {
      assert seq(n, _ => Advance)[1..] == seq(n - 1, _ => Advance);
      AdvanceIdle(w, n - 1);
    }
  }

  /** From any crash, one uninterrupted recover reconciles the journal and leaves the register as it was. */
  lemma RecoveryCompletes(w: World)
    requires Inv(w) && w.process.Idle?
    ensures var done := Run(w, [StartRecover] + seq(6, _ => Advance));
      && Inv(done) && done.process.Idle? && Settled(done.disk)
      && forall name :: done.disk.Tree(Bundle(name)) == Register(w.disk, name)
  {
    var begun := Step(w, StartRecover);
    var events := [StartRecover] + seq(6, _ => Advance);
    assert events[1..] == seq(6, _ => Advance);
    if w.disk.journal.Some? {
      AdvancesComplete(begun, 6);
    } else {
      var idle := Step(begun, Advance);
      assert events[1..][1..] == seq(5, _ => Advance);
      AdvanceIdle(idle, 5);
    }
  }
}
