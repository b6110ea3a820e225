# Verified model of the bundle transaction, the mode-2 packing tools and the audio-health tools

This project models the parts of the repository whose correctness is hardest to see from one function,
and proves what they are for.

* **Bundle transaction** (`TransactionModel`, `TransactionProofs`, `TransactionTheorems`, `Installer`).
  `scripts/lifecycle-transaction.py` replaces an active bundle through a durable journal. The model is a
  machine whose steps are single durable effects (a rename, an atomic journal write, one file of a copy or
  removal), with a crash or an exception possible between any two. `Installer.StateDirectory` holds the
  install and recover commands statement by statement over a directory they update in place, where the file
  system may fail any effect; it records the machine run it makes, so the results about all schedules speak
  about those methods.
* **Mode-2 packing** (`Mode2Layout`, `Mode2Packer`, `Mode2Decoder`, `Mode2Decoders`, `Mode2Agreement`,
  `Mode2RoundTrip`, `Mode2Validation`). One stateful packer, three independently written decoders, and the
  validation run, related to a closed description of which byte belongs to which frame.
* **Hardware lock** (`LockModel`, `LockProofs`, `LockTheorems`). Supervisors, children that inherit the locked
  descriptor, verifiers and unrelated processes that may reuse a pid, interleaved step by step and killed
  anywhere.
* **Numeric kernels over the reals** (`LeastSquares`, `LagSearch`, `LagTheorems`, `TimeWarp`). Two-input least squares in its
  Python and C++ forms, normalised lag correlation with the coarse-to-fine search, and the time warp. A
  square root is a parameter that is only required to be one.
* **Audio lifecycle tester** (`AudioObserver`, `LifecycleTester`). The audio system answers from a script the
  program does not control and logs every call with its answer; an observer reads the log alone. What the
  tester reports is related to what the observer sees.
* **Scanners and small machines** (`JsonScan`, `JsonRoundTrip`, `StackHealth`, `StackVerdict`, `Peaks`, `Clicks`).
  `Words`, `Numbers`, `Sequences` and `Wrappers` hold what several of them share.

## Where the code does not do all that it seems to

Each of these is proved, as an exact condition wherever the code meets the expectation on some inputs.

* An install is safe from every interruption if and only if the candidate differs from the bundle it
  replaces. When they are equal, recover takes the untouched original for the candidate, moves it away and
  then refuses, and no later install or recover gets out of that state
  (`TransactionTheorems.RecoverableIffDistinct`, `TransactionTheorems.LostForever`).
* Splitting a fill after whole groups changes no sample byte, but keeps the check bytes if and only if the
  first part is a multiple of 32 bytes or the second has at most 8 (`Mode2Validation.FillComposes`). For the same
  reason the validator and the packed-capture analyser count the same check errors on all data if and only
  if the transfer is a multiple of 32 bytes (`Mode2Agreement.ErrorCountersAgreeIff`).
* `verify_inherited_lock` accepts any descriptor of the lock file, not only an inherited one. Its answer of
  true always concerns the session that holds the lock if and only if the descriptor is not of the lock file
  opened outside every session (`LockTheorems.TrustworthyIff`); with such a one there is a run in which a process
  is told true for a session that has ended, because another one holds the lock
  (`LockTheorems.OutsiderIsMisled`). The probe of a verifier
  can also make a starting supervisor report the lock busy (`LockTheorems.AcquiresIffUnblocked`).
* The JSON readers look for a quoted key as plain text, so a string value that equals the key, or ends with a
  quote followed by it, is taken for the key. A field is read if and only if no string before it, other than the
  one directly in front of it, is such a string (`JsonRoundTrip.FieldIsReadIff`). For the latest_run object this
  leaves the attribution readable for every path (`JsonRoundTrip.GateReadsAttribution`).

## Model

| member | source | states |
|---|---|---|
| TransactionProofs.StepKeepsInv | scripts/lifecycle-transaction.py:86-185 | every durable effect, exception or crash of install and recover keeps the layout invariant: original in exactly one of active and backup while open, no stray stage, no journal lost |
| TransactionProofs.RunKeepsInv | scripts/lifecycle-transaction.py:86-185 | the invariant, and with it that no refusal of recover is reached, over every run of installs, crashes and recoveries with distinct candidates |
| TransactionProofs.StepRefinesRegister | scripts/lifecycle-transaction.py:116-131 | a single effect changes what a client may rely on only when it is the journal write that commits |
| TransactionProofs.RunRefinesRegister | scripts/lifecycle-transaction.py:86-185 | over any run the active bundles are an atomic register holding the last committed candidate |
| TransactionProofs.RecoverAdvances | scripts/lifecycle-transaction.py:157-185 | each block of recover leads to the next without refusing and leaves every register as it was |
| TransactionProofs.RecoveryCompletes | scripts/lifecycle-transaction.py:137-185 | from any crash one uninterrupted recover reconciles the journal and restores what the register promised |
| TransactionTheorems.AllOrNothing | scripts/lifecycle-transaction.py:86-185 | after an install met by any schedule of crashes, exceptions and interrupted recoveries, a finished recover leaves exactly the candidate if the journal reached committed and exactly the earlier state if not, and touches no other bundle |
| TransactionTheorems.RecoverableIffDistinct | scripts/lifecycle-transaction.py:155-165 | recover is never driven to a refusal if and only if the candidate differs from the bundle it replaces |
| TransactionTheorems.EqualCandidateIsLost | scripts/lifecycle-transaction.py:158-174 | with an equal candidate, a crash right after the journal is opened makes recover move the original away and refuse |
| TransactionTheorems.LostForever | scripts/lifecycle-transaction.py:93-102 | from that state every later run leaves the files as they are and the journal unreconciled |
| TransactionTheorems.RefinesAtomicRegister | scripts/lifecycle-transaction.py:86-185 | from a fresh state directory, any run shows on disk the last committed candidate once it is settled, and never a refusal |
| TransactionTheorems.OneOfEach | scripts/lifecycle-transaction.py:117-124 | while an operation is open the original is in exactly one place and a complete candidate copy in at most one |
| TransactionTheorems.StepKeepsCommitted | scripts/lifecycle-transaction.py:93-102 | a committed operation stays on record through every later effect |
| TransactionTheorems.StepKeepsHistory | scripts/lifecycle-transaction.py:97-102 | archived journals are never changed or dropped |
| TransactionTheorems.DisplacedBundleIsKept | scripts/lifecycle-transaction.py:97-131 | whatever comes later, the bundle a committed install displaced is still in its own backup |
| TransactionTheorems.EveryOperationOnRecordOnce | scripts/lifecycle-transaction.py:93-114 | each issued operation is either the current journal or archived under its own identity, never both |
| Installer.StateDirectory.constructor | scripts/lifecycle-transaction.py:91-92 | a state directory starts with user bundles, no journal and no history |
| Installer.StateDirectory.SetPhase | scripts/lifecycle-transaction.py:55-60 | one durable journal write, after which the injected failure follows exactly if it was asked for at that phase; the file system may fail it before or after the write |
| Installer.StateDirectory.Rename | scripts/lifecycle-transaction.py:121-124 | a rename happens whole or leaves the directory as it was; a missing source or a target that is not empty is always an error, and otherwise only the file system can fail it |
| Installer.StateDirectory.CopyFile | scripts/lifecycle-transaction.py:117-117 | one file more in the stage and nothing else, unless killed or failed by the file system |
| Installer.StateDirectory.CopyFiles | scripts/lifecycle-transaction.py:117-117 | a copy that is not killed or failed leaves the stage equal to the source, in whatever order files are copied |
| Installer.StateDirectory.MakeStage | scripts/lifecycle-transaction.py:117-117 | the target directory of the copy, and nothing else |
| Installer.StateDirectory.CopyTree | scripts/lifecycle-transaction.py:117-117 | if it completes, the stage is the candidate and no other path has changed; it can be killed or failed by the file system after any file |
| Installer.StateDirectory.RemoveFile | scripts/lifecycle-transaction.py:175-177 | one file of the stage goes and nothing else changes |
| Installer.StateDirectory.RemoveFiles | scripts/lifecycle-transaction.py:175-177 | the stage is emptied file by file; it can be killed or failed in between |
| Installer.StateDirectory.RemoveTree | scripts/lifecycle-transaction.py:175-177 | the stage is gone and no other path has changed |
| Installer.StateDirectory.Reject | scripts/lifecycle-transaction.py:158-165 | follows the machine through the block that moves a candidate aside, refusing in the same cases; the injected failure follows only the move |
| Installer.StateDirectory.Restore | scripts/lifecycle-transaction.py:166-174 | follows the machine through the block that restores the backup, refusing in the same cases; the injected failure follows only a restore |
| Installer.StateDirectory.Unstage | scripts/lifecycle-transaction.py:175-177 | follows the machine through the removal of the stage; the injected failure follows exactly when there was a stage |
| Installer.StateDirectory.Verify | scripts/lifecycle-transaction.py:178-183 | ends with the journal reconciled, before the injected failure if there is one, or refuses in the machine's cases |
| Installer.StateDirectory.CloseRollback | scripts/lifecycle-transaction.py:175-183 | the last two blocks together: the stage goes and the journal ends reconciled, with no failure asked for on the way passed over |
| Installer.StateDirectory.RollBack | scripts/lifecycle-transaction.py:157-183 | every block in turn from the journal write on; what cuts it short is a refusal of the machine, the injected failure, a failure of the file system or a kill, and one that ends was asked for no failure it came past; it leaves the journal it met, reconciled |
| Installer.StateDirectory.RunRecover | scripts/lifecycle-transaction.py:137-185 | the whole of recover, with any failure injected or of the file system, as a run of the machine; it reports no transaction exactly without a journal, already committed or already rolled back exactly for such a journal and with its operation, and otherwise a rollback with the operation and original of the journal it met, which is now reconciled |
| Installer.StateDirectory.Recover | scripts/lifecycle-transaction.py:137-185 | from any disk that installs and crashes can leave, recover never refuses and keeps every register, wherever it is killed or interrupted by a failure, injected or of the file system; otherwise it settles the journal, and it reports what the journal it met makes true |
| Installer.StateDirectory.StageCandidate | scripts/lifecycle-transaction.py:115-120 | if it completes, a full candidate copy is staged and the original has not moved |
| Installer.StateDirectory.SwapIn | scripts/lifecycle-transaction.py:121-125 | if it completes, the candidate is active; its own error is only a backup name that is taken, all else is the injected failure or one of the file system |
| Installer.StateDirectory.Confirm | scripts/lifecycle-transaction.py:126-131 | commits only a bundle that is the candidate and changes no file |
| Installer.StateDirectory.ArchiveJournal | scripts/lifecycle-transaction.py:93-102 | archives a reconciled journal under its own identity, or is killed or failed before doing anything |
| Installer.StateDirectory.OpenOperation | scripts/lifecycle-transaction.py:103-114 | the journal of a fresh operation is written, or an error or a kill is met with no file changed |
| Installer.StateDirectory.Execute | scripts/lifecycle-transaction.py:103-134 | an exception in the try block runs recover, and what recover reports is passed on; a failure has an injected cause, one of the file system, or a taken name, and one asked for after a phase of install is never passed over |
| Installer.StateDirectory.Install | scripts/lifecycle-transaction.py:86-134 | turned away in exactly the checked cases, each with its reason; never installed past a failure asked for after one of its phases; otherwise, with a distinct candidate, installed with the original in its backup, or, only after an injected failure or one of the file system, rolled back with every bundle as it was, or stopped by a kill or by a failure in recover itself with a disk that recover repairs |
| Installer.InstallGuarantee | scripts/lifecycle-transaction.py:86-185 | carries the all-schedules result over to the recorded run of an install |
| Installer.PromiseKept | scripts/lifecycle-transaction.py:86-134 | whatever an execution reports, the disk it leaves keeps the invariant, has the candidate or the original as its register, and every other bundle as before |
| Mode2Layout.DecodeEncode | scripts/validate-mode2-output-packing.py:44-81 | decoding undoes encoding for every 24-bit sample and both byte orders |
| Mode2Layout.EncodeDecode | scripts/validate-mode2-output-packing.py:44-81 | encoding undoes decoding for every three bytes, so the codecs are bijections |
| Mode2Layout.DecodeIsTwosComplement | scripts/validate-mode2-output-packing.py:44-65 | the three bytes are the digits to base 256 of the sample in two's complement, the lowest first or the highest first |
| Mode2Layout.CheckByteCarries | scripts/validate-mode2-output-packing.py:84-86 | a check byte is twice the stream and one more in even groups, so both are recovered from it, and it is below 8 |
| Mode2Layout.ExpectedIffMarked | scripts/validate-mode2-output-packing.py:190-192 | a byte agrees with the expected check byte if and only if its low six bits are that stream and parity |
| Mode2Layout.SampleCountClosed | scripts/validate-mode2-output-packing.py:140-161 | twelve sample bytes to a group of sixteen, none in the check field |
| Mode2Layout.SampleAtCount | scripts/validate-mode2-output-packing.py:140-161 | the index map sends a sample position to its number and back, on the same stream |
| Mode2Layout.SampleIndexIsSample | scripts/validate-mode2-output-packing.py:140-161 | every sample number has a position outside the check field |
| Mode2Packer.Packer.constructor | scripts/validate-mode2-output-packing.py:117-126 | the cursor starts at the start byte with nothing loaded |
| Mode2Packer.Packer.LoadNextOutputFrameIfNeeded | scripts/validate-mode2-output-packing.py:128-138 | after it the buffer holds the frame the cursor is in, or silence past the end of the source |
| Mode2Packer.SourceByteMeans | scripts/validate-mode2-output-packing.py:108-114 | which frame, channel and byte of the encoding each sample byte is, and zero past the last frame |
| Mode2Packer.Packer.Fill | scripts/validate-mode2-output-packing.py:140-161 | a transfer of any length is the layout's bytes from the packer's position on: the middle four bytes of each group are the streams in order with the group's parity, and the others are the sample bytes in sequence; the position advances by the lanes begun, three to a group |
| Mode2Packer.TransferIsLaid | scripts/validate-mode2-output-packing.py:140-161 | check bytes and sample bytes of a transfer, each said at its position |
| Mode2Packer.LanesBegunClosed | scripts/validate-mode2-output-packing.py:143-160 | how many lanes a transfer of any length begins |
| Mode2Packer.Packer.AppendNext | scripts/validate-mode2-output-packing.py:143-160 | one pass of the loop continues the layout by a check field or a lane, cut at the end of the transfer |
| Mode2Decoder.DecodeIsClosed | scripts/validate-mode2-output-packing.py:173-220 | on any bytes the byte-at-a-time machine collects exactly the complete frames, each byte from its place in the layout |
| Mode2Decoder.FramesAreRead | scripts/validate-mode2-output-packing.py:204-218 | the decoded frames are as many as whole frames of sample bytes, less one begun within, and each channel is three bytes one lane apart at places said in full |
| Mode2Decoder.CheckBytesCount | scripts/validate-mode2-output-packing.py:186-188 | check bytes are those in the middle of their group |
| Mode2Decoder.PanicsCount | scripts/validate-mode2-output-packing.py:189-190 | panic flags are the check bytes with the high bit set |
| Mode2Decoder.ErrorsCount | scripts/analyze-driver-capture.py:436-441 | check errors are the check bytes whose low six bits are not their stream and the parity of their group |
| Mode2Decoder.TransferErrorsCount | scripts/validate-mode2-output-packing.py:191-193 | the same with the group counted within its own transfer |
| Mode2Decoders.ValidatorDecode | scripts/validate-mode2-output-packing.py:173-220 | delivers the frames of the shared machine, each channel from its bytes, and its counters are the numbers of check bytes, of those with the panic bit and of those without their stream and parity, counted within each transfer |
| Mode2Decoders.DriverDecode | scripts/analyze-driver-capture.py:423-472 | delivers the same frames as fractions of full scale for any check offset, and the same counters, with four groups of grace |
| Mode2Decoders.DecodePair | scripts/analyze-packed-usb-capture.py:47-99 | with a buffer that is never cleared and presence bits, still delivers the pair of every frame of the shared machine and the same counters |
| Mode2Agreement.GraceErrors | scripts/analyze-driver-capture.py:439-441 | the driver analyser leaves out exactly the errors of the first four groups |
| Mode2Agreement.TransferErrorsAgree | scripts/validate-mode2-output-packing.py:183-193 | with transfers of a multiple of 32 bytes, counting groups afresh finds the same errors |
| Mode2Agreement.OddTransferDisagrees | scripts/validate-mode2-output-packing.py:183-193 | for every other transfer size there are bytes on which the counters differ |
| Mode2Agreement.ErrorCountersAgreeIff | scripts/validate-mode2-output-packing.py:183-193 | the two error counters agree on all bytes if and only if the transfer is a multiple of 32 |
| Mode2Agreement.CompareDecoders | scripts/analyze-packed-usb-capture.py:47-99 | on any bytes all three decoders deliver the same frames, checks and panic flags, and error counters that differ exactly as said |
| Mode2Agreement.CompareAnalysers | scripts/analyze-driver-capture.py:423-472 | the two analysers agree at every check offset |
| Mode2RoundTrip.StreamAt | scripts/validate-mode2-output-packing.py:257-263 | every byte of any number of transfers is the layout's byte at that place |
| Mode2RoundTrip.FrameOfStream | scripts/validate-mode2-output-packing.py:140-220 | a frame decoded from a packed stream is the source frame of its number |
| Mode2RoundTrip.RoundTrip | scripts/validate-mode2-output-packing.py:117-220 | for every frame list, start byte, byte order, transfer size and number of transfers, decoding the packed bytes gives the source frames (less a skipped first one) and then silence, with no check error and no panic flag |
| Mode2RoundTrip.FrameCountInLanes | scripts/validate-mode2-output-packing.py:204-218 | the number of decoded frames in terms of the lanes packed |
| Mode2Validation.FillComposes | scripts/validate-mode2-output-packing.py:140-161 | two fills in a row give the samples and position of one, and its check bytes exactly under the stated condition |
| Mode2Validation.LanesSettleState | scripts/validate-mode2-output-packing.py:117-161 | two packers that have begun equally many lanes are in the same state |
| Mode2Validation.FillInParts | scripts/validate-mode2-output-packing.py:140-161 | two fills of one packer against one fill of its twin: the same state at the end, the same sample bytes, and the same check bytes exactly under the stated condition |
| Mode2Validation.BudgetSuffices | scripts/validate-mode2-output-packing.py:260-268 | the transfer budget always carries every source frame, so the error at its end is unreachable |
| Mode2Validation.PackUntilComparable | scripts/validate-mode2-output-packing.py:257-268 | stops after the first transfer that makes enough frames decodable, with the bytes of exactly those transfers and the frames decoded from them; fails if and only if the whole budget does not reach, which is never for the source frames and seven more |
| Mode2Validation.MismatchesAreExact | scripts/validate-mode2-output-packing.py:271-292 | the list of mismatches in reading order holds every place where the two sides differ and nothing else |
| Mode2Validation.CompareFrames | scripts/validate-mode2-output-packing.py:271-292 | the first ten mismatches in reading order, none if and only if the frames are equal, and each channel counted once a frame up to the tenth mismatch |
| Mode2Validation.ValidateStartByte | scripts/validate-mode2-output-packing.py:295-331 | fails only for want of a frame to compare; otherwise always reports success, every expected frame compared on all channels, and the sizes of the shortest stream of transfers that holds them |
| LockProofs.StepKeepsInv | scripts/hardware-lock-supervisor.py:70-198 | every step of every process, death and reboot included, keeps the ownership invariant of lock, sessions, record and verifiers |
| LockProofs.RunKeepsInv | scripts/hardware-lock-supervisor.py:70-198 | the ownership invariant over every interleaving |
| LockTheorems.MutualExclusion | scripts/hardware-lock-supervisor.py:114-198 | live hardware processes, their verifiers and supervisors past locking, any two of them, belong to one session, the one that holds the lock, and any record its hardware processes see is its own |
| LockTheorems.LockedIffBlocked | scripts/hardware-lock-supervisor.py:120-127 | the lock is taken exactly while a live process keeps it taken, so no death leaves it stuck |
| LockTheorems.AcquiresIffUnblocked | scripts/hardware-lock-supervisor.py:120-133 | a supervisor gets the lock if and only if no live process of another session keeps it and no probe is in progress |
| LockTheorems.OnlyHolderChangesRecord | scripts/hardware-lock-supervisor.py:48-67 | the owner record is written only under the lock, and removed only by the supervisor that wrote it |
| LockTheorems.LiveRecordIsKept | scripts/hardware-lock-supervisor.py:105-111 | while a supervisor waits for its child its record stays as written, whatever other processes do |
| LockTheorems.FinishedSessionLeavesNoRecord | scripts/hardware-lock-supervisor.py:105-111 | once the child has ended, or there was no command, and the supervisor has gone through its cleanup among any steps of others, its record is gone while it still holds the lock, unless it was killed or the host went down |
| LockTheorems.AnswerNeedsStep | scripts/hardware-lock-supervisor.py:87-100 | a verifier gets past the birth check, and to the answer true, only by its own step there, with the recorded supervisor alive, or the lock taken, at that step |
| LockTheorems.TrueHasWitnesses | scripts/hardware-lock-supervisor.py:70-102 | an answer of true was preceded by that verifier's own birth check, at which the recorded supervisor itself was running and not another process under its pid, and later by its own probe, at which the lock was taken |
| LockTheorems.InheritedAnswerIsOwnSession | scripts/hardware-lock-supervisor.py:70-102 | for an inherited descriptor, true means that the asker's own session holds the lock |
| LockTheorems.OtherFileIsRefused | scripts/hardware-lock-supervisor.py:77-79 | a descriptor of another file is never answered true |
| LockTheorems.LeaseIsHonoured | scripts/hardware-lock-supervisor.py:70-102 | a process of a live session that asks with its token is never answered false, under any interleaving |
| LockTheorems.RecordNamesWriter | scripts/hardware-lock-supervisor.py:134-148 | the record a supervisor writes names itself, its own birth and this boot |
| LockTheorems.SpawnLeases | scripts/hardware-lock-supervisor.py:159-159 | a supervisor with such a record that starts a child gives it a lease, and the child holds the lock |
| LockTheorems.LeaseLasts | scripts/hardware-lock-supervisor.py:159-198 | only the death of the supervisor or its child, or of the host, ends the lease |
| LockTheorems.LeaseIsAnswered | scripts/hardware-lock-supervisor.py:70-102 | and five steps of its own later, whatever others do, an inherited verifier of a leased child is answered true with the leased record |
| LockTheorems.OutsiderIsMisled | scripts/hardware-lock-supervisor.py:73-77 | a run in which a process whose descriptor was opened outside every session is told true for a session that has ended |
| LockTheorems.TrustworthyIff | scripts/hardware-lock-supervisor.py:70-102 | an answer of true always concerns the session that holds the lock if and only if the descriptor is not of the lock file opened outside every session |
| LeastSquares.Cramer | scripts/analyze-soundcheck-linear-matrix.py:63-67 | the two quotients solve the normal equations |
| LeastSquares.DotLaws | scripts/analyze-soundcheck-linear-matrix.py:30-32 | what a dot product adds up, and that the longer sequence is cut |
| LeastSquares.FitIsBest | scripts/analyze-soundcheck-linear-matrix.py:57-68 | with a determinant above 1e-18 the residual is orthogonal to both inputs, every other pair of coefficients has a larger squared error, capture energy is prediction plus residual, and the condition number is the ratio of the largest to the smallest gain of any mix |
| LeastSquares.GuardStopsFit | scripts/analyze-soundcheck-linear-matrix.py:63-65 | with a determinant up to 1e-18, as always for dependent inputs, both coefficients are zero and the condition number is infinite, and only then |
| LeastSquares.SingularIffDependent | scripts/analyze-soundcheck-linear-matrix.py:63-63 | the determinant is zero if and only if the inputs are linearly dependent |
| LeastSquares.GramDeterminantNonnegative | scripts/analyze-soundcheck-linear-matrix.py:57-63 | the determinant is never negative (Cauchy-Schwarz), for inputs of any length |
| LeastSquares.ConditionBoundsGain | scripts/analyze-soundcheck-linear-matrix.py:43-54 | the condition number is at least one and is the ratio of the largest to the smallest gain of any mix, both reached |
| LeastSquares.ConditionIsGainRatio | scripts/analyze-soundcheck-linear-matrix.py:43-54 | for independent inputs the condition number is the ratio of the largest to the smallest gain of any mix of them, both reached |
| LeastSquares.MatrixSplitsEnergy | scripts/analyze-soundcheck-linear-matrix.py:157-173 | each row predicts its channel with less squared error than any other coefficients, and over both channels capture energy is prediction energy plus residual energy |
| LeastSquares.ClampPair | scripts/analyze-soundcheck-linear-matrix.py:195-205 | the two windows are the longest aligned ones, of equal length, moved by the least amount that fits |
| LeastSquares.Sums | tools/audiophile_wav_analysis.cpp:637-647 | the seven accumulators are the dot products of the channels |
| LeastSquares.FromSums | tools/audiophile_wav_analysis.cpp:648-663 | zero and an infinite condition number exactly at or below the threshold; above it each column solves the normal equations, and the eigenvalue ratio is the same as the Python one |
| LeastSquares.CramerIsBest | tools/audiophile_wav_analysis.cpp:648-657 | with independent inputs the solution of the normal equations has a smaller squared error than any other coefficients |
| LeastSquares.StereoMatrix | tools/audiophile_wav_analysis.cpp:628-669 | zero and an infinite condition number with a determinant up to 1e-20; above it each column is the best prediction of its channel and the condition number the ratio of the extreme gains when the smaller exceeds 1e-20; above the Python guard the matrix is the transpose of the Python one with the same finite condition number |
| LagSearch.ScoreBound | scripts/analyze-soundcheck-capture.py:126-144 | no lag, stride or clipping brings a score outside -1..1 |
| LagSearch.NormalisedBound | scripts/analyze-soundcheck-capture.py:142-144 | a score of magnitude one occurs exactly for proportional samples |
| LagSearch.ScoreLag | scripts/analyze-driver-capture.py:139-159 | the accumulating loop with its bounds checks gives the normalised correlation of the compared samples, or none |
| LagSearch.EmptyWindowHasNoScore | scripts/analyze-driver-capture.py:165-166 | the early return on an empty window gives what the scan would give |
| LagSearch.ScanLags | scripts/analyze-soundcheck-capture.py:147-163 | returns the smallest scanned lag with the largest score, or zero when no lag has a score |
| LagSearch.FindBestLag | scripts/analyze-soundcheck-capture.py:166-199 | exact over the whole range up to the single-stage limit; above it, exact over the window around the first maximum of the coarse grid |
| LagSearch.FineBeatsCoarse | scripts/analyze-driver-capture.py:195-216 | the result stays in range, and wherever the coarse winner has a fine score the result is near it and scores at least as well |
| LagSearch.NormalizeStarts | scripts/analyze-soundcheck-capture.py:221-228 | both starts become nonnegative by the same least shift |
| LagTheorems.OffsetIsSampled | scripts/analyze-soundcheck-capture.py:131-141 | every offset of the window on the stride and inside both signals is compared |
| LagTheorems.SampleHasOffset | scripts/analyze-soundcheck-capture.py:131-141 | and nothing else is |
| LagTheorems.SamplesCount | scripts/analyze-soundcheck-capture.py:131-141 | each of them once |
| LagTheorems.ScoredIffHeard | scripts/analyze-soundcheck-capture.py:142-144 | a lag has a score if and only if neither signal is silent wherever the two are compared |
| LagTheorems.ScoreIsCosine | scripts/analyze-soundcheck-capture.py:144-144 | the score is the cosine of the angle between the compared samples |
| LagTheorems.ScoresOneIffCopy | scripts/analyze-soundcheck-capture.py:126-144 | a lag, positive or negative, scores one if and only if the capture is there, wherever the two are compared, one positive multiple of a reference that is not silent |
| LagTheorems.SearchFindsCopy | scripts/analyze-soundcheck-capture.py:166-176 | in one stage the capture holds such a copy at some lag in range if and only if the search returns a score of one, and the lag returned is the first at which it does |
| LagTheorems.CoarseWinnerIsBest | scripts/analyze-soundcheck-capture.py:178-187 | the coarse winner lies on the grid of coarse steps and scores best on it, the first to do so |
| LagTheorems.FineStageFindsCopy | scripts/analyze-soundcheck-capture.py:188-199 | in two stages the same holds of the lags within two coarse steps of the coarse winner |
| TimeWarp.SampleWithin | scripts/analyze-soundcheck-capture.py:321-331 | an interpolated sample never leaves the range of the samples |
| TimeWarp.SampleAtWhole | scripts/analyze-soundcheck-capture.py:321-331 | at a whole position the sample itself comes back |
| TimeWarp.SampleBetween | scripts/analyze-soundcheck-capture.py:329-331 | between two samples the result is their mix in proportion to the distance |
| TimeWarp.SampleOutside | scripts/analyze-soundcheck-capture.py:322-328 | the first sample at or before it, the last at or past it, and zero when there is none |
| TimeWarp.InterpolatedLag | scripts/analyze-soundcheck-capture.py:334-346 | the segment search gives the lag of the first segment that reaches the offset, and the end values outside |
| TimeWarp.LagOnSegment | scripts/analyze-soundcheck-capture.py:339-345 | for an increasing profile each closed segment is the straight line between its points |
| TimeWarp.LagIsLinear | scripts/analyze-soundcheck-capture.py:339-345 | part of the way from one point to the next the lag is the same part of its way |
| TimeWarp.LagOutside | scripts/analyze-soundcheck-capture.py:334-346 | before the first point and after the last these two go on |
| TimeWarp.PassesThrough | scripts/analyze-soundcheck-capture.py:334-346 | the profile passes through each of its points |
| TimeWarp.StaysBetween | scripts/analyze-soundcheck-capture.py:339-345 | between neighbouring points the lag stays between their lags |
| TimeWarp.LagWithin | scripts/analyze-soundcheck-capture.py:334-346 | at no offset does the lag leave the range of the profile |
| TimeWarp.WarpCapturePair | scripts/analyze-soundcheck-capture.py:349-361 | one warped pair for each offset, both channels read at the start plus the offset plus its lag; without points, the slice |
| TimeWarp.SliceBounds | scripts/analyze-soundcheck-capture.py:350-351 | a bound past the end is the end and a negative one counts from it |
| TimeWarp.WarpStaysWithin | scripts/analyze-soundcheck-capture.py:355-360 | every warped sample lies within the range of its own channel |
| TimeWarp.RampIsWarped | scripts/analyze-soundcheck-capture.py:355-360 | a capture on a straight line is warped to that line's values at the source positions |
| TimeWarp.ConstantProfileShifts | scripts/analyze-soundcheck-capture.py:349-361 | a constant profile is an exact shift of the capture |
| TimeWarp.WindowLag | scripts/analyze-soundcheck-capture.py:456-463 | the lag and score of a window are the ones the search gives for it |
| TimeWarp.LagProfile | scripts/analyze-soundcheck-capture.py:446-464 | the points are strictly increasing, one for each hop whose window fits and no more, and each has the lag and score the search gives for its window |
| TimeWarp.PointFindsCopy | scripts/analyze-soundcheck-capture.py:456-463 | with lags up to 4096 a window's point has a score of one, and the first such lag, if and only if the capture holds a copy of the window at some lag in range |
| TimeWarp.LouderAndLaterIsCopy | scripts/analyze-soundcheck-capture.py:98-99 | a capture that is the reference louder or softer and moved, in both channels, is such a copy |
| JsonScan.JsonEscape | tools/direct_usb_path_attribution.cpp:256-265 | escapes exactly the quotes and backslashes |
| JsonScan.EscapeOf | tools/direct_usb_path_attribution.cpp:256-265 | quotes and backslashes are printed after a backslash, and every other character as it is |
| JsonScan.FindValue | tools/direct_usb_path_attribution.cpp:151-165 | the reading position is past the first quoted key, the first colon after it and all white space, and there is none only when one of the two is missing |
| JsonScan.StringTextMeans | tools/direct_usb_path_attribution.cpp:166-184 | a backslash makes the next character part of the string, a quote ends it, and without one there is no string |
| JsonScan.ReadersMean | tools/direct_usb_path_attribution.cpp:151-208 | the value must begin with a quote, or with one of the two flags |
| JsonScan.JsonString | tools/direct_usb_path_attribution.cpp:151-185 | the unescaped text after the first quoted key and colon, as the specification of the search says |
| JsonScan.JsonBool | tools/direct_usb_path_attribution.cpp:187-208 | the flag after the first quoted key and colon |
| JsonScan.JsonObject | tools/capture_route_health_gate.cpp:108-159 | the text up to the matching brace, with a 32-bit depth counter |
| JsonRoundTrip.UnescapeEscape | tools/capture_route_health_gate.cpp:178-195 | reading an escaped string gives the string back, whatever follows it |
| JsonRoundTrip.ObjectIsExact | tools/capture_route_health_gate.cpp:126-158 | the scan returns exactly the printed object, whatever braces, quotes or backslashes its strings hold, up to the counter's depth |
| JsonRoundTrip.SearchString | tools/capture_route_health_gate.cpp:161-166 | a printed string is taken for the key if and only if it equals the key or ends with a quote and the key |
| JsonRoundTrip.LocatesField | tools/capture_route_health_gate.cpp:161-171 | in a printed object the search reaches the first field of that name, or the field after the first string taken for it |
| JsonRoundTrip.ReadsString | tools/direct_usb_path_attribution.cpp:151-185 | json_string gives back the located field's string as it was before escaping, and nothing for any other kind of field |
| JsonRoundTrip.ReadsObject | tools/capture_route_health_gate.cpp:108-159 | json_object gives back exactly the located field's printed object |
| JsonRoundTrip.ReadsBool | tools/direct_usb_path_attribution.cpp:187-208 | json_bool gives back a located flag and nothing from a located string |
| JsonRoundTrip.FieldIsReadIff | tools/capture_route_health_gate.cpp:161-171 | of a field that is the first of its name in a flat object, the search finds the text if and only if no string before it looks like its key, or only the one directly in front of it |
| JsonRoundTrip.GateReadsLatestRun | tools/capture_route_health_gate.cpp:239-287 | latest_run is cut out exactly, and the gate finds the text of any of its fields if and only if no string before it looks like its key, or only the one directly in front of it |
| JsonRoundTrip.RunIsWellFormed | tools/direct_usb_path_attribution.cpp:482-569 | this covers every path and attribution |
| JsonRoundTrip.GateReadsAttribution | tools/direct_usb_path_attribution.cpp:482-569 | in particular the attribution is recovered for every path, and the following flag if and only if the path does not look like its key |
| AudioObserver.AudioSystem.SetAndCheck | tools/audio-lifecycle-test.c:94-138 | one write and, if it is accepted, reads of that property until one delivers the value, at most fifty; success exactly then, and one late read of a rate that confirms nothing |
| AudioObserver.RefusedIff | tools/audio-lifecycle-test.c:94-138 | a run is seen as refused exactly when some start, stop, creation, destruction or write in it failed |
| AudioObserver.StartsCount | tools/audio-lifecycle-test.c:201-204 | the starts seen are the successful ones |
| AudioObserver.StopsCount | tools/audio-lifecycle-test.c:214-217 | and so are the stops |
| LifecycleTester.LeastIsMinimum | tools/audio-lifecycle-test.c:230-231 | the running minimum is the least delta, or the sentinel when there is none |
| LifecycleTester.MeasuredAreGains | tools/audio-lifecycle-test.c:228-231 | what is measured is what each start gained that counts: a cycle that stopped and stayed quiet, or a reopening that advanced |
| LifecycleTester.CompletedCount | tools/audio-lifecycle-test.c:232-232 | the cycles completed are the starts of the inner loop that count |
| LifecycleTester.FlawlessMinima | tools/audio-lifecycle-test.c:228-231 | in a flawless run every start is measured, and both minima are positive and bound the true progress of every start |
| LifecycleTester.StartAndHold | tools/audio-lifecycle-test.c:197-212 | both counters read before a start and after its hold, and nothing else called; a failed start leaves no episode |
| LifecycleTester.StopAndSettle | tools/audio-lifecycle-test.c:213-227 | what is observed of the start is this cycle, answered by this stop, and quiet exactly when the two readings after the stop agree |
| LifecycleTester.RunCycle | tools/audio-lifecycle-test.c:197-233 | its calls are a start with both counters read before it and after its hold, and then a stop with two readings after it, cut short only where a call is refused; it goes on if and only if both counters rose, the stop succeeded and the two readings agree |
| LifecycleTester.RunCycles | tools/audio-lifecycle-test.c:196-234 | the inner loop is left unfailed if and only if all its cycles were observed good at the confirmed rate; then its calls are those of so many good cycles |
| LifecycleTester.RunRates | tools/audio-lifecycle-test.c:194-235 | unfailed if and only if both rates were confirmed in order and all cycles were observed good; otherwise there was a fault |
| LifecycleTester.ReopenAfterIdle | tools/audio-lifecycle-test.c:236-262 | a start and at once its stop; unfailed if and only if both counters rose and the stop succeeded |
| LifecycleTester.RunBody | tools/audio-lifecycle-test.c:184-262 | the failure flag is clear if and only if the calls and answers up to cleanup were flawless, and the device is left running exactly when the last call was a stop that was refused |
| LifecycleTester.StopIfRunning | tools/audio-lifecycle-test.c:264-273 | a start that no stop has answered is stopped once more, and nothing else is called |
| LifecycleTester.CleanUp | tools/audio-lifecycle-test.c:263-282 | one more stop for a start still unanswered, the settings put back one after the other whatever became of the first, and the callback destroyed if there is one, in this order; the run stays unfailed if and only if all of it succeeded and it had not failed before |
| LifecycleTester.RunFrom | tools/audio-lifecycle-test.c:184-294 | from the first write on, the report shows the calls and answers observed, and its verdict is theirs |
| LifecycleTester.RunTest | tools/audio-lifecycle-test.c:163-294 | a report if and only if both first reads succeed; PASS if and only if the calls and answers observed were flawless, restored and measured, the minima being those of the observed cycles; no failure without a fault; after PASS the calls of the run were exactly those of a good trace, from the first read to the last reading; a stop that is refused is followed at once by one more, which is the last |
| StackHealth.CpuIdlePercent | scripts/audio-stack-health.py:111-116 | fails exactly when no counter advanced, all four differences being zero modulo 2^32, and otherwise lies in 0..100 |
| StackHealth.IdleAcrossWrap | scripts/audio-stack-health.py:111-116 | across 32-bit wraparound the percentage is that of the true ticks |
| StackHealth.ApplyTaskCpuDeltas | scripts/audio-stack-health.py:194-211 | fails exactly when a counter moved backwards; otherwise each row is priced from its own identity's earlier counter alone |
| StackHealth.CollectTaskCpuSample | scripts/audio-stack-health.py:214-221 | fails exactly when a counter moved backwards; otherwise no row is lost, each is priced against the snapshot before, and the next sample is compared with exactly these counters |
| StackHealth.LastRowCounts | scripts/audio-stack-health.py:216-220 | an identity's counter is the CPU time of its last row |
| StackHealth.CollectWindow | scripts/audio-stack-health.py:285-303 | a window fails exactly when at some turn the clock or the host ticks stood still or a counter moved backwards; otherwise each sample is priced against the turn before and has the idle percentage of the ticks since then |
| StackHealth.UnpriceableMeans | scripts/audio-stack-health.py:290-300 | a turn fails exactly when no time passed, some identity's counter fell since the turn before, or no tick was counted since then |
| StackHealth.IdleOfTurn | scripts/audio-stack-health.py:299-301 | each idle percentage is that of the true ticks since the turn before, or since the start of the window |
| StackHealth.CollectRun | scripts/audio-stack-health.py:276-303 | over all windows the counters go on from one to the next and the ticks start afresh; the run fails exactly when some window does |
| StackHealth.WindowsMakeRun | scripts/audio-stack-health.py:276-303 | the windows laid end to end are one run of samples, each priced against the one before it, the first against the baseline |
| StackHealth.ShareOfSample | scripts/audio-stack-health.py:194-211 | the share a sample reports stands for exactly what the identity gained since the sample before, nothing when it is new or gone |
| StackHealth.BusyCoreIsHundred | scripts/audio-stack-health.py:210-210 | a second of CPU time for each second passed is one hundred percent |
| StackHealth.SharesTelescope | scripts/audio-stack-health.py:276-303 | over a stretch of samples of a run an identity's reported shares add up to exactly what its counter gained |
| StackHealth.ChargedFromFirstSample | scripts/audio-stack-health.py:203-206 | an identity that appears later in a run, even under a reused pid, is charged only what it used from then on |
| StackVerdict.DuplicateIgnored | scripts/audio-stack-health.py:134-145 | a second row of an identity changes no reading |
| StackVerdict.NewIdentityCounts | scripts/audio-stack-health.py:138-145 | a row of an identity not seen before adds its share to the total and to each of its labels |
| StackVerdict.ReadSample | scripts/audio-stack-health.py:134-149 | the totals count each identity once, at its first row |
| StackVerdict.EvaluateSamples | scripts/audio-stack-health.py:119-183 | passes exactly when the rounded means of all watched rows, of coreaudiod and of the driver are at most their thresholds and that of the idle figures from both places at least its own, if asked for; and reports each violation exactly when it occurs |
| StackVerdict.ViolationsMean | scripts/audio-stack-health.py:168-183 | which violation stands for which threshold |
| StackVerdict.MeanAmongGroups | scripts/audio-stack-health.py:322-324 | with equal window sizes the overall mean lies between some window's mean and some other's |
| StackVerdict.HealthCarriesOver | scripts/audio-stack-health.py:322-326 | if every window is within its thresholds, so are all samples together, for any monotone rounding |
| StackVerdict.EnumerationOf | scripts/audio-stack-health.py:224-247 | the outcome of the enumeration by its exit code, and without a binary none is run |
| StackVerdict.WindowStatusMeans | scripts/audio-stack-health.py:315-319 | without an enumeration, or with one that passed, the thresholds alone decide; one that hung, was killed or could not be made is an infrastructure error, and one that failed a failure |
| StackVerdict.JudgeWindow | scripts/audio-stack-health.py:307-319 | a window's status is its evaluation overruled by a failed enumeration, and its violations are the evaluation's and that failure |
| StackVerdict.Judge | scripts/audio-stack-health.py:285-334 | the verdict is PASS exactly when every window is, and INFRA_ERROR exactly when some window is; its violations are those of all samples together and the mark of a failed window |
| StackVerdict.RunHealthCheck | scripts/audio-stack-health.py:271-342 | the exit code is 0 exactly when every turn could be taken, every window is within its thresholds and no enumeration exited other than 0, and 2 exactly when some turn could not be taken or some enumeration exited with 124 or with 126 and above; the windows judged are those measured |
| Peaks.FindPeaks | scripts/analyze-latency-marker-peaks.py:55-69 | skipping the sample that ends a run loses no peak |
| Peaks.OnePeakPerRun | scripts/analyze-latency-marker-peaks.py:55-69 | the peaks are exactly the first maxima of the maximal runs, one each, in order |
| Peaks.MergeNearbyPeaks | scripts/analyze-latency-marker-peaks.py:31-43 | the loop with its growing group computes the merge |
| Peaks.MergeKeepsLoudest | scripts/analyze-latency-marker-peaks.py:31-43 | merging partitions the peaks into the chains the gap allows and keeps the first loudest of each |
| Peaks.MergedAreApart | scripts/analyze-latency-marker-peaks.py:31-43 | merged peaks are more than the gap apart |
| Peaks.MergeIsIdempotent | scripts/analyze-latency-marker-peaks.py:31-43 | merging merged peaks changes nothing |
| Peaks.DetectPeaks | scripts/analyze-latency-marker-peaks.py:46-79 | a raw peak for the first of the largest values of each longest stretch not below the threshold, in time order, its seconds times the rate being that place and its rms the envelope there; the reported ones are their merge, more than the gap apart |
| Clicks.RobustClickCount | scripts/analyze-loopback-quality.py:300-313 | the count is the number of positions above the threshold with neither of the two before above it |
| Clicks.ClickCount | tools/capture_matrix_quality_analysis.cpp:424-441 | the same number modulo 2^32 |
| Clicks.ConcatenationLosesAtMostOne | tools/capture_matrix_quality_analysis.cpp:427-440 | counts of two stretches add up to the count of both together, or one more exactly when a click joins them |

## Left out

- Paths: bundle and state paths are names, not file-system paths; the containment and symlink checks of `checked_paths` are one comparison here.
- Bundles: a tree is a map from file to contents and its hash is its identity; empty directories inside it, which `tree_hash` ignores, and hash collisions are not modelled. A rename onto a bundle that has only such directories would fail, where the model counts it as empty.
- Durability: a journal write and a rename are atomic and ordered; what fsync is for (loss of power reordering writes) is not modelled.
- Corrupt journals: a journal of another schema, or one edited by hand, and the refusals they cause.
- Errors in reading, as in hashing a tree or parsing a journal: they change nothing and leave the disk that a failure of the next effect leaves.
- Two processes on one state directory at once: the script takes no lock there, and neither does the model.
- The f32 quantiser `float_to_output_i24`: packing starts from 24-bit samples; the synthetic test frames are any frames.
- The ceiling of the transfer budget is taken over the integers, not over floating point.
- The lock supervisor is a transition system over its steps, not an object: what matters is how several of them interleave.
- Lock timing: signal forwarding and escalation are reduced to the child ending at some point; a birth time identifies a process among those of its pid, which the one-second text of ps does not quite do.
- Dead but not reaped: `os.kill(pid, 0)` and ps still find a process that has ended and that its parent has not waited for; in the model a process lives until it is gone from both, so "running" there means not yet reaped.
- Other programs that lock the lock file.
- Lock files: the lock file is never replaced by another inode, and `verify_inherited_lock` is given a readable record.
- IEEE rounding, NumPy and SciPy spectral work, decibels: numeric results are over the reals.
- `score_pair_lag` and `find_pair_lag` of the matrix script, and the loopback script's own lag scan, follow the same pattern as the modelled search.
- The medians that set the click threshold, and the envelope that peaks are found in, are inputs.
- JSON numbers: `json_number` ends in a library parse of floating point.
- The option parsing, device search and self-test of the lifecycle tester; the model begins with its two first reads. How long it sleeps is not modelled.
- Readings of ps, the host statistics and the enumeration command that fail themselves; each ends the check before a verdict, with exit code 2.
- The means that `evaluate_samples` reports beside its verdict, and the count of identities.
- Property values of the audio system are natural numbers; a sample rate is one.
- Report printers, command lines, markdown, git queries, ledgers, promotion and readiness scripts: long conjunctions of single checks.
