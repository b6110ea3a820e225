/**
 The start/stop cycle machine of tools/audio-lifecycle-test.c. What it reports is stated in terms of what
 AudioObserver.Observe makes of the calls and answers that the run really had.
 */
module LifecycleTester {
  import opened AudioObserver
  import opened Words
  import opened Wrappers

  const UNSET := UINT64 - 1

  // ---- Minima

  function Lower(least: Counter, d: Counter): Counter { if d < least then d else least }

  function Least(deltas: seq<Counter>): Counter {
    if deltas == [] then UNSET else Lower(Least(deltas[..|deltas| - 1]), deltas[|deltas| - 1])
  }

  /** The running minimum is the smallest delta, or the sentinel when there is none. */
  lemma {:induction false} LeastIsMinimum(deltas: seq<Counter>)
    ensures forall d :: d in deltas ==> Least(deltas) <= d
    ensures deltas != [] ==> Least(deltas) in deltas
    ensures deltas == [] ==> Least(deltas) == UNSET
  {
    if deltas == [] {
    } else {
      var front := deltas[..|deltas| - 1];
      LeastIsMinimum(front);
      assert deltas == front + [deltas[|deltas| - 1]];
      if front == [] { assert deltas[|deltas| - 1] in deltas; }
    }
  }

  function CallbackDeltas(measured: seq<Progress>): seq<Counter> {
    seq<Counter>(|measured|, i requires 0 <= i < |measured| => measured[i].Callbacks())
  }

  function FrameDeltas(measured: seq<Progress>): seq<Counter> {
    seq<Counter>(|measured|, i requires 0 <= i < |measured| => measured[i].Frames())
  }

  lemma DeltasGrow(measured: seq<Progress>, p: Progress)
    ensures Least(CallbackDeltas(measured + [p])) == Lower(Least(CallbackDeltas(measured)), p.Callbacks())
    ensures Least(FrameDeltas(measured + [p])) == Lower(Least(FrameDeltas(measured)), p.Frames())
  {
    assert CallbackDeltas(measured + [p]) == CallbackDeltas(measured) + [p.Callbacks()];
    assert FrameDeltas(measured + [p]) == FrameDeltas(measured) + [p.Frames()];
  }

  // ---- What a good run looks like to the observer

  function RateOf(r: int): Counter { if r == 0 then 44100 else 48000 }

  /**
   An episode of the inner loop counts toward the minima when it stopped and stayed quiet, the reopening when
   it advanced.
   */
  predicate Counts(e: Episode, i: nat, cycles: nat) {
    if i < cycles then e.Quiet() && e.Timed() else e.Advanced()
  }

  function Measured(episodes: seq<Episode>, cycles: nat): seq<Progress> {
    if episodes == [] then []
    else
      var i := |episodes| - 1;
      Measured(episodes[..i], cycles) + (if Counts(episodes[i], i, cycles) then [episodes[i].Gain()] else [])
  }

  /** How many episodes of the inner loop were completed. */
  function Completed(episodes: seq<Episode>, cycles: nat): nat {
    if episodes == [] then 0
    else
      var i := |episodes| - 1;
      Completed(episodes[..i], cycles) + (if i < cycles && Counts(episodes[i], i, cycles) then 1 else 0)
  }

  predicate GoodCycle(e: Episode, rate: Counter) {
    e.rate == rate && e.Advanced() && e.Quiet()
  }

  /** Each cycle ran at its rate, advanced both counters, stopped and stayed quiet. */
  predicate GoodCycles(episodes: seq<Episode>, cyclesPerRate: nat) {
    forall i :: 0 <= i < |episodes| && i < 2 * cyclesPerRate ==>
      GoodCycle(episodes[i], RateOf(if i < cyclesPerRate then 0 else 1))
  }

  /** Every cycle of both rates and, after an idle wait, one more start that advanced and stopped. */
  predicate GoodEpisodes(episodes: seq<Episode>, cyclesPerRate: nat, idleReopen: bool) {
    && GoodCycles(episodes, cyclesPerRate)
    && |episodes| == 2 * cyclesPerRate + (if idleReopen then 1 else 0)
    && (idleReopen ==> var last := episodes[|episodes| - 1]; last.Advanced() && last.Stopped())
  }

  /** Something went wrong: a call was refused, a setting never read back, or a start that is not a good episode. */
  ghost predicate Faulty(o: Observer, cyclesPerRate: nat) {
    || o.refused
    || (exists i :: 0 <= i < |o.settings| && !o.settings[i].confirmed)
    || !GoodCycles(o.episodes, cyclesPerRate)
    || (exists i :: 2 * cyclesPerRate <= i < |o.episodes| && !(o.episodes[i].Advanced() && o.episodes[i].Stopped()))
  }

  function Rates(): seq<Setting> {
    [Setting(Rate, 44100, true), Setting(Rate, 48000, true)]
  }

  function BodySettings(bufferChanged: bool): seq<Setting> {
    (if bufferChanged then [Setting(BufferFrames, 512, true)] else []) + Rates()
  }

  function RestoreSettings(rate: Counter, bufferFrames: Counter): seq<Setting> {
    [Setting(Rate, rate, true)] + (if bufferFrames != 512 then [Setting(BufferFrames, bufferFrames, true)] else [])
  }

  /** The run up to cleanup: a callback, the settings it needs, each confirmed, and good episodes only. */
  predicate FlawlessBody(o: Observer, cyclesPerRate: nat, idleReopen: bool, bufferChanged: bool) {
    && o.created && o.settings == BodySettings(bufferChanged)
    && GoodEpisodes(o.episodes, cyclesPerRate, idleReopen)
  }

  /**
   The whole run: settings made, confirmed and put back in order, one callback created and destroyed, good
   episodes only, and at the end two readings, callbacks and frames, both positive.
   */
  predicate Flawless(o: Observer, cyclesPerRate: nat, idleReopen: bool, rate: Counter, bufferFrames: Counter) {
    && o.created && o.procs == 0
    && o.settings == BodySettings(bufferFrames != 512) + RestoreSettings(rate, bufferFrames)
    && GoodEpisodes(o.episodes, cyclesPerRate, idleReopen)
    && |o.loads| == 2 && o.loads[0].of == CallbackCount && o.loads[1].of == FrameCount
    && o.loads[0].count > 0 && o.loads[1].count > 0
  }

  // ---- What is counted

  /** A cycle counts once it is stopped and two equal readings follow; the reopening once both counters rose. */
  ghost predicate Counted(e: Episode, i: nat, cycles: nat) {
    && e.Timed()
    && (if i < cycles then
          e.stop == Some(true) && |e.settle| == 2 && e.settle[0].of == CallbackCount && e.settle[0] == e.settle[1]
        else e.before[0].count < e.held[0].count && e.before[1].count < e.held[1].count)
  }

  lemma CountsIffCounted(e: Episode, i: nat, cycles: nat)
    ensures Counts(e, i, cycles) <==> Counted(e, i, cycles)
  {
  }

  /** What is measured is what each start that counts gained. */
  lemma {:induction false} MeasuredAreGains(episodes: seq<Episode>, cycles: nat, p: Progress)
    ensures p in Measured(episodes, cycles) <==>
            exists i :: 0 <= i < |episodes| && Counted(episodes[i], i, cycles) && episodes[i].Gain() == p
  {
    hide Counts, Counted, Episode.Timed;
    if episodes == [] {
    } else {
      var last := |episodes| - 1;
      MeasuredAreGains(episodes[..last], cycles, p);
      CountsIffCounted(episodes[last], last, cycles);
      assert forall i :: 0 <= i < last ==> episodes[..last][i] == episodes[i];
    }
  }

  /** The cycles completed are the starts of the inner loop that count. */
  lemma {:induction false} CompletedCount(episodes: seq<Episode>, cycles: nat)
    ensures Completed(episodes, cycles)
         == |set i | 0 <= i < |episodes| && i < cycles && Counted(episodes[i], i, cycles)|
  {
    hide Counts, Counted;
    if episodes == [] {
    } else {
      var last := |episodes| - 1;
      CompletedCount(episodes[..last], cycles);
      CountsIffCounted(episodes[last], last, cycles);
      var before := set i | 0 <= i < last && i < cycles && Counted(episodes[..last][i], i, cycles);
      assert (set i | 0 <= i < |episodes| && i < cycles && Counted(episodes[i], i, cycles))
          == if last < cycles && Counted(episodes[last], last, cycles) then before + {last} else before;
    }
  }

  // ---- Minima of a flawless run

  /** The true, unwrapped progress is no less than the two positive bounds. */
  predicate AtLeast(p: Progress, callbacks: Counter, frames: Counter) {
    0 < callbacks <= p.callbacksAfter - p.callbacksBefore && 0 < frames <= p.framesAfter - p.framesBefore
  }

  /** A delta of progress that advanced is positive. */
  lemma SomeDelta(m: seq<Progress>, callbacks: Counter, frames: Counter)
    requires forall p :: p in m ==> p.Advanced()
    requires callbacks in CallbackDeltas(m) && frames in FrameDeltas(m)
    ensures callbacks > 0 && frames > 0
  {
    var i :| 0 <= i < |m| && CallbackDeltas(m)[i] == callbacks;
    var j :| 0 <= j < |m| && FrameDeltas(m)[j] == frames;
    assert m[i] in m && m[j] in m;
  }

  lemma MinimaOfAdvanced(m: seq<Progress>)
    requires forall p :: p in m ==> p.Advanced()
    ensures forall p :: p in m ==> AtLeast(p, Least(CallbackDeltas(m)), Least(FrameDeltas(m)))
  {
    hide Least;
    var callbacks, frames := CallbackDeltas(m), FrameDeltas(m);
    LeastIsMinimum(callbacks);
    LeastIsMinimum(frames);
    forall p | p in m ensures AtLeast(p, Least(callbacks), Least(frames)) {
      var i :| 0 <= i < |m| && m[i] == p;
      assert callbacks[i] in callbacks && frames[i] in frames;
      SomeDelta(m, Least(callbacks), Least(frames));
    }
  }

  ghost predicate AllMeasured(m: seq<Progress>, episodes: seq<Episode>) {
    |m| == |episodes| && forall i :: 0 <= i < |m| ==> episodes[i].Advanced() && m[i] == episodes[i].Gain()
  }

  lemma {:induction false} EveryEpisodeIsMeasured(episodes: seq<Episode>, cycles: nat)
    requires forall i :: 0 <= i < |episodes| ==> episodes[i].Advanced() && Counts(episodes[i], i, cycles)
    ensures AllMeasured(Measured(episodes, cycles), episodes)
  {
    hide Counts, Progress.Advanced, Progress.Callbacks, Progress.Frames;
    if episodes == [] {
    } else {
      var i := |episodes| - 1;
      EveryEpisodeIsMeasured(episodes[..i], cycles);
      assert Measured(episodes, cycles) == Measured(episodes[..i], cycles) + [episodes[i].Gain()];
    }
  }

  /** In a flawless run every start is measured; both minima are positive and bound the true progress of each. */
  lemma {:induction false} FlawlessMinima(o: Observer, cyclesPerRate: nat, idleReopen: bool)
    requires GoodEpisodes(o.episodes, cyclesPerRate, idleReopen)
    ensures var m := Measured(o.episodes, 2 * cyclesPerRate);
      && AllMeasured(m, o.episodes)
      && forall p :: p in m ==> AtLeast(p, Least(CallbackDeltas(m)), Least(FrameDeltas(m)))
  {
    EveryEpisodeIsMeasured(o.episodes, 2 * cyclesPerRate);
    var m := Measured(o.episodes, 2 * cyclesPerRate);
    forall p | p in m ensures p.Advanced() {
      var i :| 0 <= i < |m| && m[i] == p;
      assert o.episodes[i].Advanced();
    }
    MinimaOfAdvanced(m);
  }

  // ---- The tester's variables

  datatype State = State(
    proc: bool, isRunning: bool, failed: bool, starts: int, stops: int, cyclesCompleted: int,
    leastCallbacks: Counter, leastFrames: Counter)
  {
    function Fail(): State { this.(failed := true) }
    function FailUnless(ok: bool): State { if ok then this else Fail() }
    function CountStart(): State { this.(isRunning := true, starts := (starts + 1) % UINT32) }
    function CountStop(): State { this.(isRunning := false, stops := (stops + 1) % UINT32) }
    function CountCycle(): State { this.(cyclesCompleted := (cyclesCompleted + 1) % UINT32) }

    function Measure(p: Progress): State {
      this.(leastCallbacks := Lower(leastCallbacks, p.Callbacks()), leastFrames := Lower(leastFrames, p.Frames()))
    }
  }

  const INITIAL := State(false, false, false, 0, 0, 0, UNSET, UNSET)

  /** The counters are what was observed modulo 2^32, and starts less stops is the running flag. */
  ghost predicate Valid(s: State, o: Observer, cycles: nat) {
    && s.starts == o.starts % UINT32 && s.stops == o.stops % UINT32
    && o.starts - o.stops == (if s.isRunning then 1 else 0)
    && o.starts == |o.episodes|
    && o.procs == (if s.proc then 1 else 0)
    && s.cyclesCompleted == Completed(o.episodes, cycles) % UINT32
    && s.leastCallbacks == Least(CallbackDeltas(Measured(o.episodes, cycles)))
    && s.leastFrames == Least(FrameDeltas(Measured(o.episodes, cycles)))
    && (s.isRunning ==> s.proc)
    && (!s.failed ==> !s.isRunning)
    && o.Answered()
  }

  /** Ready for the next cycle, or for the reopening. */
  ghost predicate Ready(s: State, o: Observer, cycles: nat) {
    Valid(s, o, cycles) && !s.failed && s.proc && o.Calm()
  }

  /** The same callback, settings and property values. */
  ghost predicate SameSetup(o: Observer, that: Observer) {
    && o.procs == that.procs && o.created == that.created
    && o.settings == that.settings && o.rate == that.rate && o.bufferFrames == that.bufferFrames
  }

  lemma CountsUp(n: nat)
    ensures (n % UINT32 + 1) % UINT32 == (n + 1) % UINT32
  {
  }

  lemma {:induction false} OneMoreEpisode(episodes: seq<Episode>, e: Episode, cycles: nat)
    ensures var all, i := episodes + [e], |episodes|;
      && Measured(all, cycles)
         == Measured(episodes, cycles) + (if Counts(e, i, cycles) then [e.Gain()] else [])
      && Completed(all, cycles)
         == Completed(episodes, cycles) + (if i < cycles && Counts(e, i, cycles) then 1 else 0)
  {
    assert (episodes + [e])[..|episodes|] == episodes;
  }

  /** The state after one more episode, whatever became of it. */
  function After(s: State, e: Episode, i: nat, cycles: nat): State
    requires e.Timed()
  {
    var held := s.CountStart().FailUnless(e.Advanced());
    var stopped := if e.Stopped() then held.CountStop() else held.Fail();
    var settled := if i < cycles then stopped.FailUnless(e.Quiet()) else stopped;
    var measured := if Counts(e, i, cycles) then settled.Measure(e.Gain()) else settled;
    if i < cycles && Counts(e, i, cycles) then measured.CountCycle() else measured
  }

  lemma AfterIsValid(s: State, o: Observer, e: Episode, next: Observer, cycles: nat)
    requires Ready(s, o, cycles) && e.Timed() && e.stop.Some?
    requires next.episodes == o.episodes + [e] && next.procs == o.procs
    requires next.starts == o.starts + 1 && next.stops == o.stops + (if e.Stopped() then 1 else 0)
    ensures Valid(After(s, e, |o.episodes|, cycles), next, cycles)
  {
    CountsUp(o.starts);
    CountsUp(o.stops);
    CountsUp(Completed(o.episodes, cycles));
    hide Measured, Completed, Least, CallbackDeltas, FrameDeltas;
    OneMoreEpisode(o.episodes, e, cycles);
    assert Measured(o.episodes, cycles) + [] == Measured(o.episodes, cycles);
    DeltasGrow(Measured(o.episodes, cycles), e.Gain());
  }

  // ---- The calls of a run

  predicate Reads(call: Call, counted: Counted) {
    call.Loaded? && call.reading.of == counted
  }

  /** Both counters, a start, and unless it is refused both counters again after the hold. */
  predicate StartCalls(calls: seq<Call>, ok: bool) {
    && |calls| == (if ok then 5 else 3)
    && Reads(calls[0], CallbackCount) && Reads(calls[1], FrameCount) && calls[2] == Started(ok)
    && (ok ==> Reads(calls[3], CallbackCount) && Reads(calls[4], FrameCount))
  }

  /** Both counters are higher after the hold than before the start. */
  predicate CountersRose(calls: seq<Call>)
    requires StartCalls(calls, true)
  {
    calls[0].reading.count < calls[3].reading.count && calls[1].reading.count < calls[4].reading.count
  }

  /** After the hold the callbacks are read once more, and the stop is followed by two readings if it succeeds. */
  predicate StopCalls(calls: seq<Call>, ok: bool) {
    && |calls| == (if ok then 4 else 2)
    && Reads(calls[0], CallbackCount) && calls[1] == Stopped(ok)
    && (ok ==> Reads(calls[2], CallbackCount) && Reads(calls[3], CallbackCount))
  }

  /** A cycle is a start that is refused, or a start and its stop, whatever the counters said in between. */
  predicate CycleCalls(calls: seq<Call>) {
    || StartCalls(calls, false)
    || (|calls| == 7 && StartCalls(calls[..5], true) && StopCalls(calls[5..], false))
    || (|calls| == 9 && StartCalls(calls[..5], true) && StopCalls(calls[5..], true))
  }

  /** Both counters rose, the stop succeeded, and the two readings after it are the same. */
  predicate GoodCycleCalls(calls: seq<Call>) {
    && |calls| == 9 && StartCalls(calls[..5], true) && StopCalls(calls[5..], true)
    && CountersRose(calls[..5]) && calls[7] == calls[8]
  }

  predicate GoodCyclesCalls(calls: seq<Call>, n: nat) {
    if n == 0 then calls == []
    else
      var rest := |calls| - 9;
      rest >= 0 && GoodCycleCalls(calls[rest..]) && GoodCyclesCalls(calls[..rest], n - 1)
  }

  /** The reopening is a start that is refused, or a start and at once its stop. */
  predicate ReopeningCalls(calls: seq<Call>) {
    StartCalls(calls, false) || (|calls| == 6 && StartCalls(calls[..5], true) && calls[5].Stopped?)
  }

  predicate GoodReopeningCalls(calls: seq<Call>) {
    |calls| == 6 && StartCalls(calls[..5], true) && CountersRose(calls[..5]) && calls[5] == Stopped(true)
  }

  /** The first stop that was refused, if one was, is the last call so far. */
  predicate Stops(log: seq<Call>, running: bool) {
    if running then log != [] && log[|log| - 1] == Stopped(false) && Stopped(false) !in log[..|log| - 1]
    else Stopped(false) !in log
  }

  /** The calls at one rate: the change to it and its cycles. */
  datatype RateCalls = RateCalls(change: seq<Call>, cycles: seq<Call>)

  predicate GoodRateCalls(c: RateCalls, rate: Counter, n: nat) {
    Transaction(c.change, Rate, rate, true) && GoodCyclesCalls(c.cycles, n)
  }

  function Flat(rates: seq<RateCalls>): seq<Call> {
    if rates == [] then []
    else
      var last := |rates| - 1;
      Flat(rates[..last]) + rates[last].change + rates[last].cycles
  }

  /** The calls between the two initial reads and the two final readings, in order. */
  datatype Trace = Trace(
    buffer: seq<Call>, rates: seq<RateCalls>, reopening: seq<Call>, restoredRate: seq<Call>, restoredBuffer: seq<Call>)
  {
    function Body(): seq<Call> { buffer + [Created(true, true)] + Flat(rates) + reopening }

    function All(): seq<Call> { Body() + restoredRate + restoredBuffer + [Destroyed(true)] }

    /** The buffer is set if need be, both rates have all their cycles, and the reopening follows if asked for. */
    predicate GoodBody(cyclesPerRate: nat, idleReopen: bool, bufferChanged: bool) {
      && (if bufferChanged then Transaction(buffer, BufferFrames, 512, true) else buffer == [])
      && |rates| == 2
      && GoodRateCalls(rates[0], 44100, cyclesPerRate) && GoodRateCalls(rates[1], 48000, cyclesPerRate)
      && (if idleReopen then GoodReopeningCalls(reopening) else reopening == [])
    }

    /** And the settings that were found are put back. */
    predicate Good(cyclesPerRate: nat, idleReopen: bool, rate: Counter, bufferFrames: Counter) {
      && GoodBody(cyclesPerRate, idleReopen, bufferFrames != 512)
      && Transaction(restoredRate, Rate, rate, true)
      && (if bufferFrames != 512 then Transaction(restoredBuffer, BufferFrames, bufferFrames, true)
          else restoredBuffer == [])
    }
  }

  lemma CycleStops(log: seq<Call>, calls: seq<Call>)
    requires Stops(log, false) && CycleCalls(calls)
    ensures Stops(log + calls, |calls| == 7)
  {
    if |calls| == 7 { assert (log + calls)[..|log + calls| - 1] == log + calls[..6]; }
    if |calls| == 9 { assert calls[5..][1] == calls[6]; }
  }

  lemma ReopeningStops(log: seq<Call>, calls: seq<Call>)
    requires Stops(log, false) && ReopeningCalls(calls)
    ensures Stops(log + calls, |calls| == 6 && calls[5] == Stopped(false))
  {
    if |calls| == 6 { assert (log + calls)[..|log + calls| - 1] == log + calls[..5]; }
  }

  lemma TransactionStops(log: seq<Call>, calls: seq<Call>, p: Property, wanted: Counter, confirmed: bool)
    requires Stops(log, false) && Transaction(calls, p, wanted, confirmed)
    ensures Stops(log + calls, false)
  {
  }

  ghost function NoCycles(): (calls: seq<Call>)
    ensures calls == [] && GoodCyclesCalls(calls, 0)
  {
    []
  }

  lemma CreationStops(log: seq<Call>, ok: bool, proc: bool)
    requires Stops(log, false)
    ensures Stops(log + [Created(ok, proc)], false)
  {
  }

  lemma OneMoreCycle(cycles: seq<Call>, n: nat, cycle: seq<Call>)
    requires GoodCyclesCalls(cycles, n) && GoodCycleCalls(cycle)
    ensures GoodCyclesCalls(cycles + cycle, n + 1)
  {
    assert (cycles + cycle)[|cycles|..] == cycle && (cycles + cycle)[..|cycles|] == cycles;
  }

  ghost function NoRates(): (rates: seq<RateCalls>)
    ensures rates == [] && Flat(rates) == []
  {
    []
  }

  lemma NoEpisodes(cyclesPerRate: nat)
    ensures GoodCycles([], cyclesPerRate)
  {
  }

  lemma {:induction false} OneMoreRate(log: seq<Call>, rates: seq<RateCalls>, last: RateCalls)
    ensures log + Flat(rates + [last]) == log + Flat(rates) + last.change + last.cycles
  {
    assert (rates + [last])[..|rates|] == rates;
  }

  lemma Appended(log: seq<Call>, a: seq<Call>, b: seq<Call>)
    ensures log + (a + b) == log + a + b
  {
  }

  // ---- The program

  /** An episode as a start and its hold leave it. */
  function Begun(rate: Counter, p: Progress): Episode {
    Episode(rate, p.Before(), [], None, [])
  }

  /** A start, the hold and the readings around them; None when the start failed. */
  method StartAndHold(audio: AudioSystem) returns (p: Option<Progress>, ghost calls: seq<Call>)
    requires audio.Seen().Calm()
    modifies audio
    ensures audio.log == old(audio.log) + calls && StartCalls(calls, p.Some?)
    ensures p.Some? ==> (p.value.Advanced() <==> CountersRose(calls))
    ensures var o, next := old(audio.Seen()), audio.Seen();
      next == match p
        case None => o.(loads := [], settling := false, refused := true)
        case Some(p) =>
          o.(loads := p.After(), settling := false,
             starts := o.starts + 1, episodes := o.episodes + [Begun(o.rate, p)])
  {
    hide Observe;
    var callbacksBefore := audio.Load(CallbackCount);
    var framesBefore := audio.Load(FrameCount);
    LastTwoOf(old(audio.Seen()).loads, Reading(CallbackCount, callbacksBefore), Reading(FrameCount, framesBefore));
    var ok := audio.Start();
    calls := [Loaded(Reading(CallbackCount, callbacksBefore)), Loaded(Reading(FrameCount, framesBefore)), Started(ok)];
    if !ok { return None, calls; }
    var callbacksAfter := audio.Load(CallbackCount);
    var framesAfter := audio.Load(FrameCount);
    calls := calls + [Loaded(Reading(CallbackCount, callbacksAfter)), Loaded(Reading(FrameCount, framesAfter))];
    p := Some(Progress(callbacksBefore, callbacksAfter, framesBefore, framesAfter));
  }

  /** The stop of a cycle and the settle window after it. */
  method StopAndSettle(audio: AudioSystem, ghost o: Observer, p: Progress)
    returns (ok: bool, quiet: bool, ghost e: Episode, ghost calls: seq<Call>)
    requires audio.Seen() == o.(loads := p.After(), settling := false,
                                starts := o.starts + 1, episodes := o.episodes + [Begun(o.rate, p)])
    modifies audio
    ensures audio.log == old(audio.log) + calls && StopCalls(calls, ok)
    ensures quiet <==> ok && calls[2] == calls[3]
    ensures SameSetup(audio.Seen(), o) && audio.Seen().episodes == o.episodes + [e]
    ensures audio.Seen().starts == o.starts + 1 && audio.Seen().stops == o.stops + (if ok then 1 else 0)
    ensures e.rate == o.rate && e.Timed() && e.Gain() == p && e.stop == Some(ok)
    ensures quiet <==> e.Quiet()
    ensures ok ==> audio.Seen().Calm()
    ensures audio.Seen().refused == (o.refused || !ok)
  {
    hide Observe;
    var beforeStop := audio.Load(CallbackCount);
    ok := audio.Stop();
    var begun := Begun(o.rate, p);
    var held := p.After() + [Reading(CallbackCount, beforeStop)];
    AnswersLast(o.episodes, begun, held, ok);
    e := begun.(held := held, stop := Some(ok));
    calls := [Loaded(Reading(CallbackCount, beforeStop)), Stopped(ok)];
    if !ok { return ok, false, e, calls; }
    var atStop := audio.Load(CallbackCount);
    SettlesLast(o.episodes, e, Reading(CallbackCount, atStop));
    e := e.(settle := e.settle + [Reading(CallbackCount, atStop)]);
    var settled := audio.Load(CallbackCount);
    SettlesLast(o.episodes, e, Reading(CallbackCount, settled));
    e := e.(settle := e.settle + [Reading(CallbackCount, settled)]);
    calls := calls + [Loaded(Reading(CallbackCount, atStop)), Loaded(Reading(CallbackCount, settled))];
    quiet := settled == atStop;
  }

  /** One pass through the inner loop. A run that has failed goes to cleanup. */
  method RunCycle(audio: AudioSystem, s: State, ghost cycles: nat)
    returns (next: State, ghost calls: seq<Call>)
    requires Ready(s, audio.Seen(), cycles) && |audio.Seen().episodes| < cycles
    requires Stops(audio.log, false)
    modifies audio
    ensures audio.log == old(audio.log) + calls && CycleCalls(calls)
    ensures !next.failed <==> GoodCycleCalls(calls)
    ensures Stops(audio.log, next.isRunning)
    ensures Valid(next, audio.Seen(), cycles) && next.proc && SameSetup(audio.Seen(), old(audio.Seen()))
    ensures var before, after := old(audio.Seen()).episodes, audio.Seen().episodes;
      && before <= after && |after| <= |before| + 1
      && (!next.failed <==> |after| == |before| + 1 && GoodCycle(after[|before|], audio.Seen().rate))
      && (next.failed && after == before ==> audio.Seen().refused)
      && (old(audio.Seen()).refused ==> audio.Seen().refused)
    ensures !next.failed ==> audio.Seen().Calm()
  {
    hide Observe, Measured, Completed;
    ghost var o, log := audio.Seen(), audio.log;
    var started;
    started, calls := StartAndHold(audio);
    if started.None? {
      CycleStops(log, calls);
      return s.Fail(), calls;
    }
    var p := started.value;
    next := s.CountStart().FailUnless(p.Advanced());
    var ok, quiet;
    ghost var e, stopping;
    ok, quiet, e, stopping := StopAndSettle(audio, o, p);
    calls := calls + stopping;
    assert calls[5..] == stopping && calls[..5] + stopping == calls;
    assert stopping[2..] == calls[7..];
    CycleStops(log, calls);
    AfterIsValid(s, o, e, audio.Seen(), cycles);
    if !ok { return next.Fail(), calls; }
    next := next.CountStop();
    if !quiet { return next.Fail(), calls; }
    next := next.Measure(p).CountCycle();
  }

  lemma NextCycle(before: seq<Episode>, after: seq<Episode>, r: nat, cycle: nat, cyclesPerRate: nat)
    requires r < 2 && cycle < cyclesPerRate && |before| == r * cyclesPerRate + cycle
    requires GoodCycles(before, cyclesPerRate) && before <= after && |after| <= |before| + 1
    ensures |after| == |before| + 1 ==>
              (GoodCycles(after, cyclesPerRate) <==> GoodCycle(after[|before|], RateOf(r)))
    ensures |before| < 2 * cyclesPerRate && |before| < (r + 1) * cyclesPerRate
  {
    var i := |before|;
    assert RateOf(r) == RateOf(if i < cyclesPerRate then 0 else 1);
    if |after| == i + 1 && GoodCycle(after[i], RateOf(r)) {
      forall k | 0 <= k < |after| && k < 2 * cyclesPerRate
        ensures GoodCycle(after[k], RateOf(if k < cyclesPerRate then 0 else 1))
      {
        if k < i { assert after[k] == before[k]; }
      }
    }
  }

  /** The inner loop at the r-th rate, which has been confirmed. */
  method RunCycles(audio: AudioSystem, s: State, ghost r: nat, cyclesPerRate: nat)
    returns (next: State, ghost calls: seq<Call>)
    requires Ready(s, audio.Seen(), 2 * cyclesPerRate) && r < 2 && audio.Seen().rate == RateOf(r)
    requires |audio.Seen().episodes| == r * cyclesPerRate && GoodCycles(audio.Seen().episodes, cyclesPerRate)
    requires Stops(audio.log, false)
    modifies audio
    ensures !next.failed ==> !next.isRunning
    ensures audio.log == old(audio.log) + calls && Stops(audio.log, next.isRunning)
    ensures !next.failed ==> GoodCyclesCalls(calls, cyclesPerRate)
    ensures Valid(next, audio.Seen(), 2 * cyclesPerRate) && next.proc && SameSetup(audio.Seen(), old(audio.Seen()))
    ensures |audio.Seen().episodes| <= (r + 1) * cyclesPerRate
    ensures var episodes := audio.Seen().episodes;
      !next.failed <==> |episodes| == (r + 1) * cyclesPerRate && GoodCycles(episodes, cyclesPerRate)
    ensures next.failed ==> Faulty(audio.Seen(), cyclesPerRate)
    ensures !next.failed ==> audio.Seen().Calm()
  {
    hide Observe, Stops, GoodCyclesCalls, GoodCycleCalls, CycleCalls;
    next, calls := s, NoCycles();
    for cycle := 0 to cyclesPerRate
      invariant audio.log == old(audio.log) + calls && GoodCyclesCalls(calls, cycle) && Stops(audio.log, false)
      invariant SameSetup(audio.Seen(), old(audio.Seen()))
      invariant Ready(next, audio.Seen(), 2 * cyclesPerRate)
      invariant |audio.Seen().episodes| == r * cyclesPerRate + cycle
      invariant GoodCycles(audio.Seen().episodes, cyclesPerRate)
    {
      ghost var before := audio.Seen().episodes;
      ghost var one;
      next, one := RunCycle(audio, next, 2 * cyclesPerRate);
      Appended(old(audio.log), calls, one);
      if !next.failed { OneMoreCycle(calls, cycle, one); }
      calls := calls + one;
      ghost var after := audio.Seen().episodes;
      NextCycle(before, after, r, cycle, cyclesPerRate);
      if next.failed { return; }
    }
  }

  lemma IdleWhenReady(s: State, o: Observer, cycles: nat)
    requires Ready(s, o, cycles)
    ensures !s.isRunning
  {
  }

  lemma LastUnconfirmed(o: Observer, cyclesPerRate: nat)
    requires o.settings != [] && !o.settings[|o.settings| - 1].confirmed
    ensures Faulty(o, cyclesPerRate)
  {
  }

  lemma SettingKeepsValid(s: State, before: Observer, after: Observer, cycles: nat)
    requires Valid(s, before, cycles) && !s.failed
    requires after == before.(loads := [], settling := false, settings := after.settings, rate := after.rate,
                              bufferFrames := after.bufferFrames, patience := after.patience,
                              refused := after.refused)
    ensures Valid(s, after, cycles) && Valid(s.Fail(), after, cycles) && after.Calm()
  {
  }

  lemma RatesSoFar(settings: seq<Setting>, r: nat, after: seq<Setting>, confirmed: bool)
    requires r < 2 && after == settings + Rates()[..r] + [Setting(Rate, RateOf(r), confirmed)]
    ensures confirmed ==> after == settings + Rates()[..r + 1]
    ensures !confirmed || r == 0 ==> after != settings + Rates()
  {
    assert after[|settings| + r] == Setting(Rate, RateOf(r), confirmed);
    assert (settings + Rates())[|settings| + r] == Rates()[r];
  }

  /** Both rates, each confirmed before its cycles. */
  method RunRates(audio: AudioSystem, s: State, cyclesPerRate: nat)
    returns (next: State, ghost rates: seq<RateCalls>)
    requires Ready(s, audio.Seen(), 2 * cyclesPerRate) && audio.Seen().episodes == []
    requires Stops(audio.log, false)
    modifies audio
    ensures !next.failed ==> !next.isRunning
    ensures old(audio.log) <= audio.log && Stops(audio.log, next.isRunning)
    ensures !next.failed ==>
      && audio.log == old(audio.log) + Flat(rates) && |rates| == 2
      && GoodRateCalls(rates[0], 44100, cyclesPerRate) && GoodRateCalls(rates[1], 48000, cyclesPerRate)
    ensures Valid(next, audio.Seen(), 2 * cyclesPerRate) && next.proc
    ensures audio.Seen().bufferFrames == old(audio.Seen()).bufferFrames
    ensures audio.Seen().created == old(audio.Seen()).created
    ensures |audio.Seen().episodes| <= 2 * cyclesPerRate
    ensures !next.failed <==>
              && audio.Seen().settings == old(audio.Seen()).settings + Rates()
              && |audio.Seen().episodes| == 2 * cyclesPerRate && GoodCycles(audio.Seen().episodes, cyclesPerRate)
    ensures next.failed ==> Faulty(audio.Seen(), cyclesPerRate)
    ensures !next.failed ==> audio.Seen().Calm()
  {
    hide Observe, Valid, GoodCycle, GoodCycles, Stops, GoodCyclesCalls, Transaction, Flat, Faulty;
    IdleWhenReady(s, audio.Seen(), 2 * cyclesPerRate);
    ghost var settings := audio.Seen().settings;
    next, rates := s, NoRates();
    NoEpisodes(cyclesPerRate);
    for r := 0 to 2
      invariant audio.log == old(audio.log) + Flat(rates) && |rates| == r && Stops(audio.log, false)
      invariant !next.isRunning
      invariant forall i :: 0 <= i < r ==> GoodRateCalls(rates[i], RateOf(i), cyclesPerRate)
      invariant Ready(next, audio.Seen(), 2 * cyclesPerRate)
      invariant audio.Seen().bufferFrames == old(audio.Seen()).bufferFrames
      invariant audio.Seen().created == old(audio.Seen()).created
      invariant audio.Seen().settings == settings + Rates()[..r]
      invariant |audio.Seen().episodes| == r * cyclesPerRate && GoodCycles(audio.Seen().episodes, cyclesPerRate)
    {
      ghost var before := audio.Seen();
      ghost var log := audio.log;
      var confirmed;
      ghost var change, cycles;
      confirmed, change := audio.SetAndCheck(Rate, RateOf(r));
      TransactionStops(log, change, Rate, RateOf(r), confirmed);
      SettingKeepsValid(next, before, audio.Seen(), 2 * cyclesPerRate);
      RatesSoFar(settings, r, audio.Seen().settings, confirmed);
      if !confirmed {
        LastUnconfirmed(audio.Seen(), cyclesPerRate);
        return next.Fail(), rates;
      }
      next, cycles := RunCycles(audio, next, r, cyclesPerRate);
      if next.failed { return; }
      OneMoreRate(old(audio.log), rates, RateCalls(change, cycles));
      rates := rates + [RateCalls(change, cycles)];
    }
  }

  /** The stop of the reopening, which no settle window follows. */
  method StopReopened(audio: AudioSystem, ghost o: Observer, p: Progress) returns (ok: bool, ghost e: Episode)
    requires audio.Seen() == o.(loads := p.After(), settling := false,
                                starts := o.starts + 1, episodes := o.episodes + [Begun(o.rate, p)])
    modifies audio
    ensures audio.log == old(audio.log) + [Stopped(ok)]
    ensures SameSetup(audio.Seen(), o) && audio.Seen().episodes == o.episodes + [e]
    ensures audio.Seen().starts == o.starts + 1 && audio.Seen().stops == o.stops + (if ok then 1 else 0)
    ensures e.Timed() && e.Gain() == p && e.stop == Some(ok)
    ensures audio.Seen().refused == (o.refused || !ok)
  {
    hide Observe;
    ok := audio.Stop();
    var held := p.After();
    AnswersLast(o.episodes, Begun(o.rate, p), held, ok);
    e := Begun(o.rate, p).(held := held, stop := Some(ok));
  }

  /** The reopening after the idle wait. */
  method ReopenAfterIdle(audio: AudioSystem, s: State, ghost cycles: nat)
    returns (next: State, ghost calls: seq<Call>)
    requires Ready(s, audio.Seen(), cycles) && |audio.Seen().episodes| == cycles
    requires Stops(audio.log, false)
    modifies audio
    ensures !next.failed ==> !next.isRunning
    ensures audio.log == old(audio.log) + calls && ReopeningCalls(calls)
    ensures !next.failed <==> GoodReopeningCalls(calls)
    ensures Stops(audio.log, next.isRunning)
    ensures Valid(next, audio.Seen(), cycles) && next.proc && SameSetup(audio.Seen(), old(audio.Seen()))
    ensures old(audio.Seen()).episodes <= audio.Seen().episodes
    ensures !next.failed <==>
              && |audio.Seen().episodes| == cycles + 1
              && audio.Seen().episodes[cycles].Advanced() && audio.Seen().episodes[cycles].Stopped()
    ensures next.failed && |audio.Seen().episodes| == cycles ==> audio.Seen().refused
    ensures |audio.Seen().episodes| <= cycles + 1
  {
    hide Observe, Measured, Completed;
    ghost var o, log := audio.Seen(), audio.log;
    var started;
    started, calls := StartAndHold(audio);
    if started.None? {
      ReopeningStops(log, calls);
      return s.Fail(), calls;
    }
    var p := started.value;
    next := s.CountStart().FailUnless(p.Advanced());
    var ok;
    ghost var e;
    ok, e := StopReopened(audio, o, p);
    calls := calls + [Stopped(ok)];
    assert calls[..5] + [Stopped(ok)] == calls;
    ReopeningStops(log, calls);
    AfterIsValid(s, o, e, audio.Seen(), cycles);
    next := if ok then next.CountStop() else next.Fail();
    if p.Advanced() { next := next.Measure(p); }
  }

  lemma CreationKeepsValid(o: Observer, ok: bool, proc: bool, cycles: nat)
    requires Valid(INITIAL, o, cycles)
    ensures var s := INITIAL.(proc := proc);
      Valid(s, Feed(o, Created(ok, proc)), cycles) && Valid(s.Fail(), Feed(o, Created(ok, proc)), cycles)
  {
  }

  /** Everything between the initial reads and cleanup. */
  method RunBody(audio: AudioSystem, cyclesPerRate: nat, idleReopen: bool, bufferChanged: bool)
    returns (s: State, ghost trace: Trace)
    requires Valid(INITIAL, audio.Seen(), 2 * cyclesPerRate) && audio.Seen().episodes == []
    requires audio.Seen().settings == [] && !audio.Seen().created && audio.Seen().Calm()
    requires Stops(audio.log, false)
    modifies audio
    ensures old(audio.log) <= audio.log && Stops(audio.log, s.isRunning)
    ensures !s.failed ==>
      audio.log == old(audio.log) + trace.Body() && trace.GoodBody(cyclesPerRate, idleReopen, bufferChanged)
    ensures Valid(s, audio.Seen(), 2 * cyclesPerRate) && (!s.failed ==> s.proc)
    ensures !s.failed <==> FlawlessBody(audio.Seen(), cyclesPerRate, idleReopen, bufferChanged)
    ensures s.failed ==> Faulty(audio.Seen(), cyclesPerRate)
    ensures !bufferChanged ==> audio.Seen().bufferFrames == old(audio.Seen()).bufferFrames
  {
    hide Observe, Valid, Stops, Transaction, GoodRateCalls, GoodReopeningCalls, Flat;
    s, trace := INITIAL, Trace([], [], [], [], []);
    if bufferChanged {
      ghost var before := audio.Seen();
      var confirmed;
      ghost var change;
      confirmed, change := audio.SetAndCheck(BufferFrames, 512);
      TransactionStops(old(audio.log), change, BufferFrames, 512, confirmed);
      trace := trace.(buffer := change);
      SettingKeepsValid(s, before, audio.Seen(), 2 * cyclesPerRate);
      if !confirmed {
        LastUnconfirmed(audio.Seen(), cyclesPerRate);
        return s.Fail(), trace;
      }
    }
    ghost var before, log := audio.Seen(), audio.log;
    var ok, proc := audio.CreateProc();
    s := s.(proc := proc);
    CreationKeepsValid(before, ok, proc, 2 * cyclesPerRate);
    CreationStops(log, ok, proc);
    if !ok || !proc { return s.Fail(), trace; }
    ghost var rates, reopening;
    s, rates := RunRates(audio, s, cyclesPerRate);
    trace := trace.(rates := rates);
    if s.failed { return; }
    assert audio.Seen().settings == BodySettings(bufferChanged);
    if idleReopen {
      s, reopening := ReopenAfterIdle(audio, s, 2 * cyclesPerRate);
      trace := trace.(reopening := reopening);
    }
  }

  /** A start that no stop has answered is stopped once more. */
  method StopIfRunning(audio: AudioSystem, s: State, ghost cycles: nat)
    returns (next: State, ghost calls: seq<Call>)
    requires Valid(s, audio.Seen(), cycles)
    modifies audio
    ensures audio.log == old(audio.log) + calls
    ensures if old(audio.Seen()).starts == old(audio.Seen()).stops then calls == []
            else |calls| == 1 && calls[0].Stopped?
    ensures var o := old(audio.Seen());
      audio.Seen() == o.(loads := audio.Seen().loads, settling := audio.Seen().settling, stops := audio.Seen().stops,
                         refused := audio.Seen().refused)
    ensures old(audio.Seen()).refused ==> audio.Seen().refused
    ensures next == s.(isRunning := false, failed := next.failed, stops := next.stops)
    ensures next.stops == audio.Seen().stops % UINT32
    ensures !next.failed <==> !s.failed
    ensures !s.failed ==> audio.Seen().stops == old(audio.Seen()).stops
    ensures audio.Seen().starts == audio.Seen().stops || (next.failed && audio.Seen().starts == audio.Seen().stops + 1)
  {
    hide Observe, Measured, Completed, CallbackDeltas, FrameDeltas;
    next, calls := s, [];
    if s.isRunning && s.proc {
      CountsUp(audio.Seen().stops);
      var ok := audio.Stop();
      calls := [Stopped(ok)];
      next := if ok then next.CountStop() else next.Fail().(isRunning := false);
    }
  }

  lemma Restored(settings: seq<Setting>, after: seq<Setting>, rate: Counter, bufferFrames: Counter,
                 confirmed: bool, again: bool)
    requires after == if bufferFrames != 512
                      then settings + [Setting(Rate, rate, confirmed)] + [Setting(BufferFrames, bufferFrames, again)]
                      else settings + [Setting(Rate, rate, confirmed)]
    requires bufferFrames == 512 ==> again
    ensures settings <= after && |after| == |settings| + |RestoreSettings(rate, bufferFrames)|
    ensures after == settings + RestoreSettings(rate, bufferFrames) <==> confirmed && again
    ensures !confirmed || !again ==> exists i :: 0 <= i < |after| && !after[i].confirmed
  {
    var restored := settings + RestoreSettings(rate, bufferFrames);
    assert restored[|settings|] == Setting(Rate, rate, true) && after[|settings|] == Setting(Rate, rate, confirmed);
    if bufferFrames != 512 {
      assert restored[|settings| + 1] == Setting(BufferFrames, bufferFrames, true);
      assert after[|settings| + 1] == Setting(BufferFrames, bufferFrames, again);
    }
  }

  /** The rate is put back, and then the buffer if it was changed, whatever became of the rate. */
  ghost predicate RestoreCalls(
    toRate: seq<Call>, toBuffer: seq<Call>, rate: Counter, bufferFrames: Counter, confirmed: bool, again: bool)
  {
    && Transaction(toRate, Rate, rate, confirmed)
    && (if bufferFrames != 512 then Transaction(toBuffer, BufferFrames, bufferFrames, again)
        else toBuffer == [] && again)
  }

  method Restore(audio: AudioSystem, rate: Counter, bufferFrames: Counter)
    returns (restored: bool, ghost toRate: seq<Call>, ghost toBuffer: seq<Call>)
    modifies audio
    ensures audio.log == old(audio.log) + toRate + toBuffer
    ensures exists confirmed, again ::
      RestoreCalls(toRate, toBuffer, rate, bufferFrames, confirmed, again) && restored == (confirmed && again)
    ensures var o, seen := old(audio.Seen()), audio.Seen();
      && seen == o.(loads := [], settling := false, settings := seen.settings, rate := seen.rate,
                    bufferFrames := seen.bufferFrames, patience := seen.patience, refused := seen.refused)
      && (o.refused ==> seen.refused)
      && (!restored ==> exists i :: 0 <= i < |seen.settings| && !seen.settings[i].confirmed)
      && o.settings <= seen.settings
      && |seen.settings| == |o.settings| + |RestoreSettings(rate, bufferFrames)|
      && (restored <==> seen.settings == o.settings + RestoreSettings(rate, bufferFrames))
      && (bufferFrames == 512 ==> seen.bufferFrames == o.bufferFrames)
      && (restored ==> seen.rate == rate && (bufferFrames != 512 ==> seen.bufferFrames == bufferFrames))
  {
    hide Observe, Transaction;
    ghost var settings := audio.Seen().settings;
    restored, toRate := audio.SetAndCheck(Rate, rate);
    toBuffer := [];
    ghost var confirmed, again := restored, true;
    if bufferFrames != 512 {
      var ok;
      ok, toBuffer := audio.SetAndCheck(BufferFrames, bufferFrames);
      again := ok;
      restored := restored && ok;
    }
    assert RestoreCalls(toRate, toBuffer, rate, bufferFrames, confirmed, again);
    Restored(settings, audio.Seen().settings, rate, bufferFrames, confirmed, again);
  }

  /** The calls of cleanup: one more stop if a start is still unanswered, the settings, and the callback. */
  ghost predicate CleanUpCalls(calls: seq<Call>, stop: seq<Call>, toRate: seq<Call>, toBuffer: seq<Call>,
                               destruction: seq<Call>, running: bool, created: bool) {
    && calls == stop + toRate + toBuffer + destruction
    && (if running then |stop| == 1 && stop[0].Stopped? else stop == [])
    && (if created then |destruction| == 1 && destruction[0].Destroyed? else destruction == [])
  }

  /** The cleanup label: stop if still running, restore rate and buffer, destroy the callback. */
  method CleanUp(audio: AudioSystem, s: State, rate: Counter, bufferFrames: Counter, ghost cycles: nat)
    returns (next: State, ghost stop: seq<Call>, ghost toRate: seq<Call>, ghost toBuffer: seq<Call>,
             ghost destruction: seq<Call>)
    requires Valid(s, audio.Seen(), cycles) && (!s.failed ==> s.proc)
    modifies audio
    ensures old(audio.log) <= audio.log
    ensures CleanUpCalls(audio.log[|old(audio.log)|..], stop, toRate, toBuffer, destruction,
                         old(audio.Seen()).starts != old(audio.Seen()).stops, old(audio.Seen()).procs == 1)
    ensures exists confirmed, again ::
      && RestoreCalls(toRate, toBuffer, rate, bufferFrames, confirmed, again)
      && (!next.failed <==> !s.failed && confirmed && again && destruction == [Destroyed(true)])
    ensures next == s.(isRunning := false, failed := next.failed, stops := next.stops)
    ensures var o, seen := old(audio.Seen()), audio.Seen();
      && next.stops == seen.stops % UINT32
      && seen.episodes == o.episodes && seen.starts == o.starts && seen.created == o.created
      && (!s.failed ==> seen.stops == o.stops)
      && (seen.starts == seen.stops || (next.failed && seen.starts == seen.stops + 1))
      && o.settings <= seen.settings
      && |seen.settings| == |o.settings| + |RestoreSettings(rate, bufferFrames)|
      && (!next.failed <==>
            !s.failed && seen.settings == o.settings + RestoreSettings(rate, bufferFrames) && seen.procs == 0)
      && (bufferFrames == 512 ==> seen.bufferFrames == o.bufferFrames)
      && (!next.failed ==> seen.rate == rate && (bufferFrames != 512 ==> seen.bufferFrames == bufferFrames))
      && seen.loads == [] && !seen.settling
      && (o.refused ==> seen.refused)
    ensures next.failed && !s.failed ==>
              || audio.Seen().refused
              || exists i :: 0 <= i < |audio.Seen().settings| && !audio.Seen().settings[i].confirmed
  {
    hide Observe, Measured, Completed, CallbackDeltas, FrameDeltas, RestoreCalls;
    next, stop := StopIfRunning(audio, s, cycles);
    var restored;
    restored, toRate, toBuffer := Restore(audio, rate, bufferFrames);
    next := next.FailUnless(restored);
    destruction := [];
    if s.proc {
      var ok := audio.DestroyProc();
      destruction := [Destroyed(ok)];
      next := next.FailUnless(ok);
    }
    assert audio.log == old(audio.log) + (stop + toRate + toBuffer + destruction);
  }

  lemma {:induction false} AllCompleted(episodes: seq<Episode>, cycles: nat)
    requires forall i :: 0 <= i < |episodes| && i < cycles ==> episodes[i].Quiet() && episodes[i].Advanced()
    ensures Completed(episodes, cycles) == if |episodes| <= cycles then |episodes| else cycles
  {
    if episodes == [] {
    } else {
      AllCompleted(episodes[..|episodes| - 1], cycles);
    }
  }

  function FinalReadings(callbacks: Counter, frames: Counter): seq<Reading> {
    [Reading(CallbackCount, callbacks), Reading(FrameCount, frames)]
  }

  /** A flawless run is a flawless body, everything restored, and two positive readings. */
  lemma {:induction false} FlawlessIff(
    body: Observer, end: Observer, cyclesPerRate: nat, idleReopen: bool, rate: Counter, bufferFrames: Counter)
    requires end.created == body.created && end.episodes == body.episodes && body.settings <= end.settings
    requires |end.settings| == |body.settings| + |RestoreSettings(rate, bufferFrames)|
    ensures forall callbacks, frames ::
      Flawless(end.(loads := FinalReadings(callbacks, frames)), cyclesPerRate, idleReopen, rate, bufferFrames) <==>
      && FlawlessBody(body, cyclesPerRate, idleReopen, bufferFrames != 512)
      && end.settings == body.settings + RestoreSettings(rate, bufferFrames)
      && end.procs == 0 && callbacks > 0 && frames > 0
    ensures FlawlessBody(body, cyclesPerRate, idleReopen, bufferFrames != 512) ==>
              && Completed(end.episodes, 2 * cyclesPerRate) == 2 * cyclesPerRate
              && |end.episodes| == 2 * cyclesPerRate + (if idleReopen then 1 else 0)
  {
    var all := BodySettings(bufferFrames != 512) + RestoreSettings(rate, bufferFrames);
    if end.settings == all {
      assert body.settings == end.settings[..|body.settings|] == BodySettings(bufferFrames != 512);
    }
    if GoodEpisodes(end.episodes, cyclesPerRate, idleReopen) {
      AllCompleted(end.episodes, 2 * cyclesPerRate);
    }
  }

  /** Nothing later repairs a fault. */
  lemma FaultStays(body: Observer, end: Observer, cyclesPerRate: nat)
    requires end.episodes == body.episodes && body.settings <= end.settings && (body.refused ==> end.refused)
    ensures Faulty(body, cyclesPerRate) ==> Faulty(end, cyclesPerRate)
  {
    if i :| 0 <= i < |body.settings| && !body.settings[i].confirmed { assert !end.settings[i].confirmed; }
  }

  lemma NothingSeen(audio: AudioSystem, cycles: nat)
    requires audio.log == []
    ensures audio.Seen() == NOTHING
  {
  }

  lemma ReadsKeepValid(o: Observer, cycles: nat)
    requires o == NOTHING.(rate := o.rate, bufferFrames := o.bufferFrames)
    ensures Valid(INITIAL, o, cycles)
  {
  }

  datatype Report = Report(
    pass: bool, starts: int, stops: int, cyclesCompleted: int, leastCallbacks: Counter, leastFrames: Counter,
    originalRate: Counter, originalBuffer: Counter, callbacks: Counter, frames: Counter)

  /** The two initial reads succeeded. */
  predicate FirstReads(log: seq<Call>) {
    && |log| >= 2
    && log[0].Read? && log[0].p == Rate && log[0].ok
    && log[1].Read? && log[1].p == BufferFrames && log[1].ok
  }

  /** One of them failed, and nothing was called after it. */
  predicate FirstReadFails(log: seq<Call>) {
    var failed := |log| - 1;
    && 0 <= failed < 2
    && log[failed].Read? && log[failed].p == (if failed == 0 then Rate else BufferFrames) && !log[failed].ok
    && (failed == 1 ==> log[0].Read? && log[0].p == Rate && log[0].ok)
  }

  lemma FailureIsFault(o: Observer, cyclesPerRate: nat)
    ensures o.refused || (exists i :: 0 <= i < |o.settings| && !o.settings[i].confirmed) ==> Faulty(o, cyclesPerRate)
  {
  }

  /** The report shows what was observed. */
  ghost predicate Shows(r: Report, o: Observer, cyclesPerRate: nat) {
    var measured := Measured(o.episodes, 2 * cyclesPerRate);
    && r.starts == o.starts % UINT32 && r.stops == o.stops % UINT32
    && r.cyclesCompleted == Completed(o.episodes, 2 * cyclesPerRate) % UINT32
    && r.leastCallbacks == Least(CallbackDeltas(measured)) && r.leastFrames == Least(FrameDeltas(measured))
    && o.loads == FinalReadings(r.callbacks, r.frames)
  }

  /** Both minima were taken. */
  predicate Taken(r: Report) {
    r.leastCallbacks != UNSET && r.leastFrames != UNSET
  }

  /** What the verdict of a report promises about the run that was observed. */
  ghost predicate Judges(r: Report, o: Observer, cyclesPerRate: nat, idleReopen: bool) {
    && (r.pass <==> Flawless(o, cyclesPerRate, idleReopen, r.originalRate, r.originalBuffer) && Taken(r))
    && (!r.pass ==> Faulty(o, cyclesPerRate) || r.callbacks == 0 || r.frames == 0 || !Taken(r))
    && (r.pass ==> o.starts == o.stops == 2 * cyclesPerRate + (if idleReopen then 1 else 0))
    && (r.pass ==> o.rate == r.originalRate && o.bufferFrames == r.originalBuffer)
    && (o.starts != o.stops ==> !r.pass && o.starts == o.stops + 1)
  }

  /** A stop that is refused is followed at once by another one, which is the last. */
  ghost predicate Retried(log: seq<Call>) {
    forall k :: 0 <= k < |log| && log[k] == Stopped(false) && Stopped(false) !in log[..k] ==>
      && k + 1 < |log| && log[k + 1].Stopped?
      && forall i :: k + 2 <= i < |log| ==> !log[i].Stopped?
  }

  ghost predicate WithoutStops(calls: seq<Call>) {
    forall call :: call in calls ==> !call.Stopped?
  }

  lemma RefusalIsRetried(log: seq<Call>, stop: seq<Call>, rest: seq<Call>, running: bool)
    requires Stops(log, running)
    requires if running then |stop| == 1 && stop[0].Stopped? else stop == []
    requires WithoutStops(rest)
    ensures Retried(log + stop + rest)
  {
    var all, r := log + stop + rest, |log| - 1;
    if running {
      assert forall k :: 0 <= k < r ==> all[k] == log[..r][k];
      forall k | 0 <= k < |all| && all[k] == Stopped(false) && Stopped(false) !in all[..k]
        ensures k == r
      {
        assert all[r] == Stopped(false);
        assert forall i :: 0 <= i < k ==> all[i] == all[..k][i];
      }
    } else {
      assert forall k :: 0 <= k < |log| ==> all[k] in log;
    }
  }

  lemma RestoreHasNoStops(toRate: seq<Call>, toBuffer: seq<Call>, rate: Counter, bufferFrames: Counter,
                          confirmed: bool, again: bool)
    requires RestoreCalls(toRate, toBuffer, rate, bufferFrames, confirmed, again)
    ensures WithoutStops(toRate) && WithoutStops(toBuffer)
  {
  }

  /** Cleanup makes no other stop than the one that retries. */
  lemma CleanUpRetries(
    log: seq<Call>, cleaned: seq<Call>, stop: seq<Call>, toRate: seq<Call>, toBuffer: seq<Call>,
    destruction: seq<Call>, rate: Counter, bufferFrames: Counter, running: bool, created: bool, callbacks: Counter,
    frames: Counter)
    requires Stops(log, running) && log <= cleaned
    requires CleanUpCalls(cleaned[|log|..], stop, toRate, toBuffer, destruction, running, created)
    requires exists confirmed, again :: RestoreCalls(toRate, toBuffer, rate, bufferFrames, confirmed, again)
    ensures Retried(cleaned + [Loaded(Reading(CallbackCount, callbacks))] + [Loaded(Reading(FrameCount, frames))])
  {
    hide Stops, Retried, RestoreCalls;
    var confirmed, again :| RestoreCalls(toRate, toBuffer, rate, bufferFrames, confirmed, again);
    RestoreHasNoStops(toRate, toBuffer, rate, bufferFrames, confirmed, again);
    var rest := toRate + toBuffer + destruction +
      [Loaded(Reading(CallbackCount, callbacks)), Loaded(Reading(FrameCount, frames))];
    RefusalIsRetried(log, stop, rest, running);
    assert cleaned == log + cleaned[|log|..];
    assert cleaned + [Loaded(Reading(CallbackCount, callbacks))] + [Loaded(Reading(FrameCount, frames))]
        == log + stop + rest;
  }

  /** An unfailed run made exactly the calls of a good trace. */
  lemma WholeTrace(
    start: seq<Call>, log: seq<Call>, cleaned: seq<Call>, body: Trace, stop: seq<Call>, toRate: seq<Call>,
    toBuffer: seq<Call>, destruction: seq<Call>, cyclesPerRate: nat, idleReopen: bool, rate: Counter,
    bufferFrames: Counter, created: bool)
    requires log == start + body.Body() && log <= cleaned
    requires body.GoodBody(cyclesPerRate, idleReopen, bufferFrames != 512)
    requires CleanUpCalls(cleaned[|log|..], stop, toRate, toBuffer, destruction, false, created)
    requires RestoreCalls(toRate, toBuffer, rate, bufferFrames, true, true) && destruction == [Destroyed(true)]
    ensures var trace := body.(restoredRate := toRate, restoredBuffer := toBuffer);
      cleaned == start + trace.All() && trace.Good(cyclesPerRate, idleReopen, rate, bufferFrames)
  {
    hide Flat, Transaction, GoodRateCalls, GoodReopeningCalls;
    var trace := body.(restoredRate := toRate, restoredBuffer := toBuffer);
    assert cleaned == log + cleaned[|log|..];
    assert trace.Body() == body.Body();
    assert start + body.Body() + (toRate + toBuffer + destruction)
        == start + (body.Body() + toRate + toBuffer + destruction);
  }

  /** main from the first write on. */
  method RunFrom(audio: AudioSystem, cyclesPerRate: nat, idleReopen: bool, originalRate: Counter, original: Counter)
    returns (r: Report, ghost trace: Trace)
    requires cyclesPerRate < UINT32 && Stops(audio.log, false)
    requires audio.Seen() == NOTHING.(rate := originalRate, bufferFrames := original)
    modifies audio
    ensures old(audio.log) <= audio.log
    ensures Retried(audio.log)
    ensures r.pass ==>
      && trace.Good(cyclesPerRate, idleReopen, originalRate, original)
      && audio.log == old(audio.log) + trace.All()
                      + [Loaded(Reading(CallbackCount, r.callbacks)), Loaded(Reading(FrameCount, r.frames))]
    ensures r.originalRate == originalRate && r.originalBuffer == original
    ensures Shows(r, audio.Seen(), cyclesPerRate) && Judges(r, audio.Seen(), cyclesPerRate, idleReopen)
  {
    hide Measured, Completed, CallbackDeltas, FrameDeltas, Least, Flawless, FlawlessBody, RestoreSettings, Observe;
    hide Faulty, Confirm, AnswerStop, LastTwo, Stops, Retried, RestoreCalls, Trace.GoodBody, Trace.Body, CleanUpCalls;
    hide Trace.All, Trace.Good, Transaction, Flat;
    ReadsKeepValid(audio.Seen(), 2 * cyclesPerRate);
    var s;
    s, trace := RunBody(audio, cyclesPerRate, idleReopen, original != 512);
    ghost var body, log, running := audio.Seen(), audio.log, s.isRunning;
    ghost var stop, toRate, toBuffer, destruction;
    s, stop, toRate, toBuffer, destruction := CleanUp(audio, s, originalRate, original, 2 * cyclesPerRate);
    ghost var cleaned := audio.log;
    FlawlessIff(body, audio.Seen(), cyclesPerRate, idleReopen, originalRate, original);
    ghost var end := audio.Seen();
    FaultStays(body, end, cyclesPerRate);
    FailureIsFault(end, cyclesPerRate);
    var callbacks := audio.Load(CallbackCount);
    var frames := audio.Load(FrameCount);
    FaultStays(end, audio.Seen(), cyclesPerRate);
    CleanUpRetries(log, cleaned, stop, toRate, toBuffer, destruction, originalRate, original, running, body.procs == 1,
                   callbacks, frames);
    if !s.failed {
      WholeTrace(old(audio.log), log, cleaned, trace, stop, toRate, toBuffer, destruction, cyclesPerRate, idleReopen,
                 originalRate, original, body.procs == 1);
      trace := trace.(restoredRate := toRate, restoredBuffer := toBuffer);
    }
    var pass := !s.failed && s.starts == s.stops && s.cyclesCompleted == cyclesPerRate * 2 % UINT32 &&
      callbacks > 0 && frames > 0 && s.leastCallbacks != UNSET && s.leastFrames != UNSET;
    r := Report(pass, s.starts, s.stops, s.cyclesCompleted, s.leastCallbacks, s.leastFrames,
                originalRate, original, callbacks, frames);
  }

  /**
   main from the two initial reads on. There is a report exactly when both reads succeed. It shows what was
   observed, and says PASS exactly when the run was flawless and both minima were taken; then the device was
   started and stopped once per cycle and once for the reopening, and holds its original settings. Without
   PASS there was a fault: the run is never cut short for any other reason. A device is left running only by
   a stop that failed in cleanup.
   */
  method RunTest(audio: AudioSystem, cyclesPerRate: nat, idleReopen: bool)
    returns (r: Option<Report>, ghost trace: Trace)
    requires cyclesPerRate < UINT32 && audio.log == []
    modifies audio
    ensures Retried(audio.log)
    ensures r.Some? && r.value.pass ==>
      && trace.Good(cyclesPerRate, idleReopen, r.value.originalRate, r.value.originalBuffer)
      && audio.log == [Read(Rate, true, r.value.originalRate), Read(BufferFrames, true, r.value.originalBuffer)]
                      + trace.All()
                      + [Loaded(Reading(CallbackCount, r.value.callbacks)), Loaded(Reading(FrameCount, r.value.frames))]
    ensures if r.Some? then FirstReads(audio.log) else FirstReadFails(audio.log)
    ensures r.Some? ==>
      && r.value.originalRate == audio.log[0].value && r.value.originalBuffer == audio.log[1].value
      && Shows(r.value, audio.Seen(), cyclesPerRate)
      && Judges(r.value, audio.Seen(), cyclesPerRate, idleReopen)
  {
    hide Observe, Shows, Judges;
    trace := Trace([], [], [], [], []);
    NothingSeen(audio, 2 * cyclesPerRate);
    var ok, originalRate := audio.ReadProperty(Rate);
    if !ok { return None, trace; }
    var original: Counter;
    ok, original := audio.ReadProperty(BufferFrames);
    if !ok { return None, trace; }
    ghost var begun := audio.log;
    var report;
    report, trace := RunFrom(audio, cyclesPerRate, idleReopen, originalRate, original);
    assert audio.log[0] == begun[0] && audio.log[1] == begun[1];
    r := Some(report);
  }
}
