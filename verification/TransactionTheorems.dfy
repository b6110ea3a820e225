/** The main results on the bundle transaction, over every schedule of crashes and recoveries. */
module TransactionTheorems {
  import opened Wrappers
  import opened TransactionModel
  import opened TransactionProofs

  ghost predicate NoNewInstall(schedule: seq<Event>) {
    forall i :: 0 <= i < |schedule| ==> !schedule[i].StartInstall?
  }

  /** Every world the schedule can pass through belongs to one install of `tree` over `active`. */
  ghost predicate During(w: World, before: Disk, tree: Tree, active: string) {
    match w.disk.journal
    case None =>
      && w.disk.files == before.files
      && !w.process.Refused?
      && (w.process.Checked? ==> w.process.tree == tree && w.process.active == active)
    case Some(j) =>
      && j.active == active
      && j.candidateTree == tree
      && j.original == before.Tree(Bundle(active))
      && !w.process.Checked?
  }

  lemma StepRecoverStaysDuring(w: World, at: RecoverPoint, before: Disk, tree: Tree, active: string)
    requires Inv(w) && During(w, before, tree, active) && w.process == Recovering(at)
    ensures During(StepRecover(w, at), before, tree, active)
  {
  }

  lemma StepStaysDuring(w: World, e: Event, before: Disk, tree: Tree, active: string)
    requires Inv(w) && During(w, before, tree, active) && !e.StartInstall?
    ensures During(Step(w, e), before, tree, active)
  {
    match e
    case Advance =>
      match w.process {
        case Installing(at) =>
        case Recovering(at) => StepRecoverStaysDuring(w, at, before, tree, active);
        case _ =>
      }
    case OpenJournal(op) =>
    case _ =>
  }

  lemma {:induction false} RunStaysDuring(w: World, schedule: seq<Event>, before: Disk, tree: Tree, active: string)
    requires Inv(w) && During(w, before, tree, active) && NoNewInstall(schedule)
    requires before.Tree(Bundle(active)) != Some(tree)
    ensures DistinctRun(w, schedule)
    ensures Inv(Run(w, schedule)) && During(Run(w, schedule), before, tree, active)
    ensures forall name :: name != active ==> Register(Run(w, schedule).disk, name) == Register(w.disk, name)
    decreases |schedule|
  {
    if schedule == [] {
    } else {
      var e := schedule[0];
      var next := Step(w, e);
      StepKeepsInv(w, e);
      StepStaysDuring(w, e, before, tree, active);
      RunStaysDuring(next, schedule[1..], before, tree, active);
      forall name | name != active
        ensures Register(next.disk, name) == Register(w.disk, name)
      {
        StepRefinesRegister(w, e, name);
      }
    }
  }

  /** What a caller of install can check before the call. */
  ghost predicate Installable(w: World, candidate: Path, active: string) {
    && Inv(w) && w.process.Idle? && Settled(w.disk)
    && candidate != Bundle(active)
    && candidate in w.disk.files
  }

  /** The bundle that must be active once the operation is reconciled. */
  function Outcome(end: Disk, before: Disk, tree: Tree, active: string): Option<Tree> {
    if end.journal.Some? && end.journal.value.phase == Committed then Some(tree) else before.Tree(Bundle(active))
  }

  lemma InstallStarts(w: World, candidate: Path, active: string)
    requires Installable(w, candidate, active)
    ensures var started := Step(w, StartInstall(candidate, active));
      && Inv(started) && started.process.Checked?
      && During(started, w.disk, w.disk.files[candidate], active)
      && forall name :: Register(started.disk, name) == w.disk.Tree(Bundle(name))
  {
    StepKeepsInv(w, StartInstall(candidate, active));
  }

  lemma RegisterGivesOutcome(end: World, before: Disk, tree: Tree, active: string)
    requires Inv(end) && During(end, before, tree, active)
    ensures Register(end.disk, active) == Outcome(end.disk, before, tree, active)
  {
  }

  /**
   All or nothing. After an install that meets any schedule of crashes, exceptions and interrupted
   recoveries, no refusal has been reached; if the operation is reconciled the active path holds
   exactly the candidate or exactly what it held before, as the journal says; and if it is not, a
   recover that finishes makes it so. Every other bundle is left alone.
   */
  lemma {:induction false} AllOrNothing(w: World, candidate: Path, active: string, schedule: seq<Event>)
    requires Installable(w, candidate, active) && NoNewInstall(schedule)
    requires w.disk.Tree(Bundle(active)) != Some(w.disk.files[candidate])
    ensures var tree := w.disk.files[candidate];
      var end := Run(Step(w, StartInstall(candidate, active)), schedule);
      var recovered := Run(Step(end, Crash), [StartRecover] + seq(6, _ => Advance));
      && !end.process.Refused? && recovered.process.Idle? && Settled(recovered.disk)
      && (Settled(end.disk) ==>
            && end.disk.Tree(Bundle(active)) == Outcome(end.disk, w.disk, tree, active)
            && forall name :: name != active ==> end.disk.Tree(Bundle(name)) == w.disk.Tree(Bundle(name)))
      && recovered.disk.Tree(Bundle(active)) == Outcome(end.disk, w.disk, tree, active)
      && forall name :: name != active ==> recovered.disk.Tree(Bundle(name)) == w.disk.Tree(Bundle(name))
  {
    var tree := w.disk.files[candidate];
    var started := Step(w, StartInstall(candidate, active));
    var end := Run(started, schedule);
    InstallStarts(w, candidate, active);
    RunStaysDuring(started, schedule, w.disk, tree, active);
    RegisterGivesOutcome(end, w.disk, tree, active);
    StepKeepsInv(end, Crash);
    RecoveryCompletes(Step(end, Crash));
  }

  lemma {:induction false} FreshOp(issued: set<OpId>) returns (op: OpId)
    ensures op !in issued && forall o :: o in issued ==> o < op
  {
    if issued == {} {
      op := 0;
    } else {
      var one :| one in issued;
      var rest := FreshOp(issued - {one});
      op := if rest > one then rest else one + 1;
      forall o | o in issued
        ensures o < op
      {
        assert o == one || o in issued - {one};
      }
    }
  }

  /** The interruption that install cannot survive when the candidate equals what it replaces. */
  function Interruption(op: OpId): seq<Event> {
    [OpenJournal(op), Crash, StartRecover, Advance, Advance, Advance]
  }

  lemma StartsUnnamed(w: World, candidate: Path, active: string, op: OpId)
    requires Installable(w, candidate, active) && op !in w.issued
    ensures var w0 := Step(w, StartInstall(candidate, active));
      && w0.process == Checked(candidate, w.disk.files[candidate], active)
      && w0.disk.files == w.disk.files && w0.disk.journal.None? && op !in w0.issued
      && Baseline(op) !in w0.disk.files && Rejected(op) !in w0.disk.files
  {
    assert Baseline(op).BelongsTo(op) && Rejected(op).BelongsTo(op);
  }

  /** The open operation has neither an active bundle nor a backup to restore one from. */
  ghost predicate Lost(w: World) {
    && w.disk.journal.Some?
    && var j := w.disk.journal.value;
    && j.phase == Rollback
    && j.original.Some?
    && Bundle(j.active) !in w.disk.files
    && Baseline(j.op) !in w.disk.files
    && (w.process.Idle? || w.process.Refused?
        || (w.process.Recovering? && w.process.recover in {Begin, ToReject, ToRestore}))
  }

  lemma UntouchedIsRejected(w: World, op: OpId)
    requires w.process.Checked? && op !in w.issued && w.disk.journal.None?
    requires w.disk.Tree(Bundle(w.process.active)) == Some(w.process.tree)
    requires Baseline(op) !in w.disk.files && Rejected(op) !in w.disk.files
    ensures var es := Interruption(op);
      var end := Step(Step(Step(Step(Step(Step(w, es[0]), es[1]), es[2]), es[3]), es[4]), es[5]);
      end.process == Refused(BaselineMissing) && Lost(end)
  {
    var w3 := Step(Step(Step(w, OpenJournal(op)), Crash), StartRecover);
    var w4 := Step(w3, Advance);
    assert w4.process == Recovering(ToReject) && w4.disk.files == w.disk.files;
    var w5 := Step(w4, Advance);
    assert w5.process == Recovering(ToRestore);
  }

  lemma {:induction false} RunSix(w: World, es: seq<Event>)
    requires |es| == 6
    ensures Run(w, es) == Step(Step(Step(Step(Step(Step(w, es[0]), es[1]), es[2]), es[3]), es[4]), es[5])
  {
    var w1 := Step(w, es[0]);
    var w2 := Step(w1, es[1]);
    var w3 := Step(w2, es[2]);
    assert es[1..][1..] == es[2..] && es[2..][1..] == es[3..];
    assert Run(w, es) == Run(w1, es[1..]) == Run(w2, es[2..]) == Run(w3, es[3..]);
    assert es[3..][1..] == es[4..] && es[4..][1..] == es[5..] && es[5..][1..] == [];
    var w4 := Step(w3, es[3]);
    var w5 := Step(w4, es[4]);
    assert Run(w3, es[3..]) == Run(w4, es[4..]) == Run(w5, es[5..]) == Run(Step(w5, es[5]), []);
  }

  /** Recover takes the untouched original for the candidate, moves it away, and then misses it. */
  lemma EqualCandidateIsLost(w: World, candidate: Path, active: string, op: OpId)
    requires Installable(w, candidate, active)
    requires w.disk.Tree(Bundle(active)) == Some(w.disk.files[candidate])
    requires op !in w.issued
    ensures var end := Run(Step(w, StartInstall(candidate, active)), Interruption(op));
      end.process == Refused(BaselineMissing) && Lost(end)
  {
    var w0 := Step(w, StartInstall(candidate, active));
    StartsUnnamed(w, candidate, active, op);
    UntouchedIsRejected(w0, op);
    RunSix(w0, Interruption(op));
  }

  /** From there nothing helps: every later recover refuses and every later install is turned away. */
  lemma {:induction false} LostForever(w: World, events: seq<Event>)
    requires Lost(w)
    ensures var end := Run(w, events);
      Lost(end) && end.disk.files == w.disk.files && !Settled(end.disk)
    decreases |events|
  {
    if events == [] {
    } else {
      LostForever(Step(w, events[0]), events[1..]);
    }
  }

  /**
   An install is safe from every interruption exactly when its candidate differs from the bundle it
   replaces, a condition the installer can check from the two hashes before it opens the journal.
   */
  lemma RecoverableIffDistinct(w: World, candidate: Path, active: string)
    requires Installable(w, candidate, active)
    ensures w.disk.Tree(Bundle(active)) != Some(w.disk.files[candidate])
       <==> forall schedule :: NoNewInstall(schedule) ==>
              !Run(Step(w, StartInstall(candidate, active)), schedule).process.Refused?
  {
    if w.disk.Tree(Bundle(active)) != Some(w.disk.files[candidate]) {
      forall schedule | NoNewInstall(schedule)
        ensures !Run(Step(w, StartInstall(candidate, active)), schedule).process.Refused?
      {
        AllOrNothing(w, candidate, active, schedule);
      }
    } else {
      var op := FreshOp(w.issued);
      EqualCandidateIsLost(w, candidate, active, op);
      assert NoNewInstall(Interruption(op));
    }
  }

  /** The single-register view: every run from a fresh state directory, and what its disk shows. */
  lemma {:induction false} RefinesAtomicRegister(w: World, events: seq<Event>)
    requires Initial(w) && DistinctRun(w, events)
    ensures var end := Run(w, events);
      && !end.process.Refused?
      && forall name ::
           && Register(end.disk, name) == Replay(Log(w, events), name, w.disk.Tree(Bundle(name)))
           && (Settled(end.disk) ==> end.disk.Tree(Bundle(name)) == Register(end.disk, name))
  {
    InitialInv(w);
    RunKeepsInv(w, events);
    forall name {
      RunRefinesRegister(w, events, name);
    }
  }

  /** While an operation is open there is one original, and at most one complete candidate copy. */
  lemma OneOfEach(w: World)
    requires Inv(w) && w.disk.journal.Some? && !w.disk.journal.value.Reconciled()
    ensures var j := w.disk.journal.value;
      var active, backup := w.disk.Tree(Bundle(j.active)), w.disk.Tree(Baseline(j.op));
      var stage, rejected := w.disk.Tree(Stage(j.active, j.op)), w.disk.Tree(Rejected(j.op));
      var c := Some(j.candidateTree);
      && (j.original.Some? ==> (active == j.original) != (backup == j.original))
      && (j.original.None? ==> backup == None && (active == None || active == c))
      && !(stage == c && active == c) && !(stage == c && rejected == c) && !(active == c && rejected == c)
  {
  }

  // ----- History

  /** A committed operation, in the current journal or archived under its identity. */
  ghost predicate IsCommitted(d: Disk, j: Journal) {
    && j.phase == Committed
    && (d.journal == Some(j) || (j.op in d.history && d.history[j.op] == j))
  }

  lemma RecoverKeepsCommitted(w: World, at: RecoverPoint, j: Journal)
    requires Inv(w) && IsCommitted(w.disk, j) && w.process == Recovering(at)
    ensures IsCommitted(StepRecover(w, at).disk, j)
  {
  }

  lemma StepKeepsCommitted(w: World, e: Event, j: Journal)
    requires Inv(w) && IsCommitted(w.disk, j)
    ensures IsCommitted(Step(w, e).disk, j)
  {
    match e
    case StartInstall(candidate, active) =>
    case Advance =>
      if w.process.Recovering? { RecoverKeepsCommitted(w, w.process.recover, j); }
    case _ =>
  }

  /** Archived journals are never changed or dropped. */
  lemma StepKeepsHistory(w: World, e: Event, op: OpId)
    requires Inv(w) && op in w.disk.history
    ensures op in Step(w, e).disk.history && Step(w, e).disk.history[op] == w.disk.history[op]
  {
    hide Located, Untouched, InPlace, InstallShape, RecoverShape, JournalShape, Archived;
  }

  /** Whatever comes later, a committed operation stays on record and the bundle it displaced is kept. */
  lemma {:induction false} DisplacedBundleIsKept(w: World, events: seq<Event>, j: Journal)
    requires Inv(w) && DistinctRun(w, events) && IsCommitted(w.disk, j)
    ensures IsCommitted(Run(w, events).disk, j)
    ensures Run(w, events).disk.Tree(Baseline(j.op)) == j.original
    decreases |events|
  {
    if events == [] {
    } else {
      StepKeepsInv(w, events[0]);
      StepKeepsCommitted(w, events[0], j);
      DisplacedBundleIsKept(Step(w, events[0]), events[1..], j);
    }
  }

  /** Each issued operation is on record exactly once, and all but the latest are final. */
  lemma EveryOperationOnRecordOnce(w: World, op: OpId)
    requires Inv(w) && op in w.issued
    ensures (op in w.disk.history) != (w.disk.journal.Some? && w.disk.journal.value.op == op)
    ensures op in w.disk.history ==> w.disk.history[op].op == op && w.disk.history[op].Reconciled()
  {
  }
}
