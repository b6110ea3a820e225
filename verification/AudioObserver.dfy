/**
 The audio system that tools/audio-lifecycle-test.c drives, and an observer of it. Every status, property
 value and counter reading comes from a script the caller does not control, so what is proved holds for
 every behaviour of the system. Each call is logged with its answer, and Observe reads the log alone: it
 knows nothing of the program that makes the calls.
 */
module AudioObserver {
  import opened Words
  import opened Wrappers

  type Counter = x: int | 0 <= x < UINT64

  datatype Property = Rate | BufferFrames

  /** One answer of the audio system: whether the call succeeded, and the value it delivers. */
  datatype Reply = Reply(ok: bool, value: Counter)

  /** The two counters that the device callback keeps. */
  datatype Counted = CallbackCount | FrameCount

  datatype Reading = Reading(of: Counted, count: Counter)

  datatype Call =
    | Loaded(reading: Reading)
    | Started(ok: bool)
    | Stopped(ok: bool)
    | Created(ok: bool, proc: bool)
    | Destroyed(ok: bool)
    | Wrote(p: Property, wanted: Counter, ok: bool)
    | Read(p: Property, ok: bool, value: Counter)

  // ---- What the calls and their answers amount to

  /** Unsigned 64-bit subtraction. */
  function Delta(before: Counter, after: Counter): (d: Counter)
    ensures before + d == after || before + d == after + 0x1_0000_0000_0000_0000
  {
    if after >= before then after - before else after - before + UINT64
  }

  /** The counters read before a start and at the end of the hold that follows it. */
  datatype Progress = Progress(
    callbacksBefore: Counter, callbacksAfter: Counter, framesBefore: Counter, framesAfter: Counter)
  {
    /** CycleProgressAccepted. */
    predicate Advanced() { callbacksAfter > callbacksBefore && framesAfter > framesBefore }

    function Before(): seq<Reading> { [Reading(CallbackCount, callbacksBefore), Reading(FrameCount, framesBefore)] }
    function After(): seq<Reading> { [Reading(CallbackCount, callbacksAfter), Reading(FrameCount, framesAfter)] }

    function Callbacks(): Counter { Delta(callbacksBefore, callbacksAfter) }
    function Frames(): Counter { Delta(framesBefore, framesAfter) }
  }

  /**
   One successful start: the rate last read, the two readings just before it, those between it and its
   first stop, the answer to that stop, and the first two readings right after it.
   */
  datatype Episode = Episode(
    rate: Counter, before: seq<Reading>, held: seq<Reading>, stop: Option<bool>, settle: seq<Reading>)
  {
    /** Callbacks and frames were read before the start, and again in the hold. */
    predicate Timed() {
      && |before| == 2 && before[0].of == CallbackCount && before[1].of == FrameCount
      && |held| >= 2 && held[0].of == CallbackCount && held[1].of == FrameCount
    }

    function Gain(): Progress
      requires Timed()
    {
      Progress(before[0].count, held[0].count, before[1].count, held[1].count)
    }

    predicate Advanced() { Timed() && Gain().Advanced() }

    predicate Stopped() { stop == Some(true) }

    /** It stopped, and no callback was counted in the settle window after the stop. */
    predicate Quiet() {
      Stopped() && |settle| == 2 && settle[0].of == CallbackCount && settle[0] == settle[1]
    }
  }

  /** How many reads after a write are waited for. */
  const PATIENCE := 50

  /** A property that was written, and whether one of the reads that were waited for delivered the value. */
  datatype Setting = Setting(p: Property, wanted: Counter, confirmed: bool)

  datatype Observer = Observer(
    loads: seq<Reading>,  // the readings since the last other call
    settling: bool,       // that other call was a successful stop
    episodes: seq<Episode>,
    starts: nat,
    stops: nat,
    procs: int,           // callbacks created and not destroyed
    created: bool,        // one was created without an error
    rate: Counter,        // each property as last read
    bufferFrames: Counter,
    settings: seq<Setting>,
    patience: nat,        // how many further reads can confirm the last write
    refused: bool)        // some start, stop, creation, destruction or write failed
  {
    function Value(p: Property): Counter { if p.Rate? then rate else bufferFrames }

    /** The next reading belongs to no settle window. */
    predicate Calm() { settling ==> episodes != [] && |episodes[|episodes| - 1].settle| == 2 }

    /** Every start has had a stop attempted after it. */
    predicate Answered() { episodes != [] ==> episodes[|episodes| - 1].stop.Some? }
  }

  const NOTHING := Observer([], false, [], 0, 0, 0, false, 0, 0, [], 0, false)

  function LastTwo(loads: seq<Reading>): seq<Reading> {
    if |loads| <= 2 then loads else loads[|loads| - 2..]
  }

  function Settle(episodes: seq<Episode>, reading: Reading): seq<Episode> {
    if episodes == [] || |episodes[|episodes| - 1].settle| >= 2 then episodes
    else
      var last := episodes[|episodes| - 1];
      episodes[..|episodes| - 1] + [last.(settle := last.settle + [reading])]
  }

  function AnswerStop(episodes: seq<Episode>, held: seq<Reading>, ok: bool): seq<Episode> {
    if episodes == [] || episodes[|episodes| - 1].stop.Some? then episodes
    else episodes[..|episodes| - 1] + [episodes[|episodes| - 1].(held := held, stop := Some(ok))]
  }

  lemma LastTwoOf(loads: seq<Reading>, a: Reading, b: Reading)
    ensures LastTwo(loads + [a] + [b]) == [a, b]
  {
  }

  lemma SettlesLast(episodes: seq<Episode>, e: Episode, reading: Reading)
    requires |e.settle| < 2
    ensures Settle(episodes + [e], reading) == episodes + [e.(settle := e.settle + [reading])]
  {
    assert (episodes + [e])[..|episodes|] == episodes;
  }

  lemma AnswersLast(episodes: seq<Episode>, e: Episode, held: seq<Reading>, ok: bool)
    requires e.stop.None?
    ensures AnswerStop(episodes + [e], held, ok) == episodes + [e.(held := held, stop := Some(ok))]
  {
    assert (episodes + [e])[..|episodes|] == episodes;
  }

  /** A read that delivers the value written last confirms it. */
  function Confirm(settings: seq<Setting>, p: Property, value: Counter): seq<Setting> {
    if settings == [] then []
    else
      var last := settings[|settings| - 1];
      if last.p == p && last.wanted == value
      then settings[..|settings| - 1] + [last.(confirmed := true)]
      else settings
  }

  function Feed(o: Observer, call: Call): Observer {
    if call.Loaded? then
      o.(loads := o.loads + [call.reading],
         episodes := if o.settling then Settle(o.episodes, call.reading) else o.episodes)
    else
      var next := o.(loads := [], settling := false);
      match call
      case Started(ok) =>
        if ok
        then next.(starts := o.starts + 1, episodes := o.episodes + [Episode(o.rate, LastTwo(o.loads), [], None, [])])
        else next.(refused := true)
      case Stopped(ok) =>
        next.(settling := ok, stops := o.stops + (if ok then 1 else 0), refused := o.refused || !ok,
              episodes := AnswerStop(o.episodes, o.loads, ok))
      case Created(ok, proc) =>
        next.(procs := o.procs + (if proc then 1 else 0), created := o.created || (ok && proc),
              refused := o.refused || !ok || !proc)
      case Destroyed(ok) => next.(procs := o.procs - (if ok then 1 else 0), refused := o.refused || !ok)
      case Wrote(p, wanted, ok) =>
        next.(settings := o.settings + [Setting(p, wanted, false)], patience := if ok then PATIENCE else 0,
              refused := o.refused || !ok)
      case Read(p, ok, value) =>
        var waited := next.(patience := if o.patience > 0 then o.patience - 1 else 0);
        if !ok then waited
        else
          var read := if p.Rate? then waited.(rate := value) else waited.(bufferFrames := value);
          if o.patience > 0 then read.(settings := Confirm(o.settings, p, value)) else read
  }

  /** What an observer of the whole log has seen. */
  function Observe(log: seq<Call>): Observer {
    if log == [] then NOTHING else Feed(Observe(log[..|log| - 1]), log[|log| - 1])
  }

  lemma {:induction false} ObserveNext(log: seq<Call>, call: Call)
    ensures Observe(log + [call]) == Feed(Observe(log), call)
  {
    assert (log + [call])[..|log|] == log;
  }

  /** The call was refused, or a creation handed back no callback. */
  ghost predicate Refused(call: Call) {
    match call
    case Started(ok) => !ok
    case Stopped(ok) => !ok
    case Created(ok, proc) => !ok || !proc
    case Destroyed(ok) => !ok
    case Wrote(_, _, ok) => !ok
    case _ => false
  }

  /** What one more call adds to the marks and counts of an observer. */
  lemma FeedCounts(o: Observer, call: Call)
    ensures Feed(o, call).refused <==> o.refused || Refused(call)
    ensures Feed(o, call).starts == o.starts + (if call == Started(true) then 1 else 0)
    ensures Feed(o, call).stops == o.stops + (if call == Stopped(true) then 1 else 0)
  {
    hide Settle, AnswerStop, Confirm, LastTwo;
  }

  lemma {:induction false} LastCall(log: seq<Call>)
    requires log != []
    ensures var last := |log| - 1;
      Observe(log) == Feed(Observe(log[..last]), log[last])
  {
  }

  /** An observer has seen a refusal exactly when some call was refused. */
  lemma {:induction false} RefusedIff(log: seq<Call>)
    ensures Observe(log).refused <==> exists i :: 0 <= i < |log| && Refused(log[i])
  {
    hide Feed, Refused;
    if log == [] {
    } else {
      var last := |log| - 1;
      RefusedIff(log[..last]);
      LastCall(log);
      FeedCounts(Observe(log[..last]), log[last]);
      hide Observe;
      assert forall i :: 0 <= i < last ==> log[..last][i] == log[i];
    }
  }

  lemma {:induction false} StartsCount(log: seq<Call>)
    ensures Observe(log).starts == |set i | 0 <= i < |log| && log[i] == Started(true)|
  {
    hide Feed;
    if log == [] {
    } else {
      var last := |log| - 1;
      StartsCount(log[..last]);
      LastCall(log);
      FeedCounts(Observe(log[..last]), log[last]);
      var starts := set i | 0 <= i < last && log[..last][i] == Started(true);
      assert (set i | 0 <= i < |log| && log[i] == Started(true))
          == if log[last] == Started(true) then starts + {last} else starts;
    }
  }

  lemma {:induction false} StopsCount(log: seq<Call>)
    ensures Observe(log).stops == |set i | 0 <= i < |log| && log[i] == Stopped(true)|
  {
    hide Feed;
    if log == [] {
    } else {
      var last := |log| - 1;
      StopsCount(log[..last]);
      LastCall(log);
      FeedCounts(Observe(log[..last]), log[last]);
      var stops := set i | 0 <= i < last && log[..last][i] == Stopped(true);
      assert (set i | 0 <= i < |log| && log[i] == Stopped(true))
          == if log[last] == Stopped(true) then stops + {last} else stops;
    }
  }

  // ---- The system itself

  lemma ConfirmLast(settings: seq<Setting>, p: Property, wanted: Counter, actual: Counter)
    ensures Confirm(settings + [Setting(p, wanted, false)], p, actual)
         == settings + [Setting(p, wanted, actual == wanted)]
  {
    assert (settings + [Setting(p, wanted, false)])[..|settings|] == settings;
  }

  predicate Delivers(call: Call, p: Property, wanted: Counter) {
    call.Read? && call.p == p && call.ok && call.value == wanted
  }

  /**
   The calls that write a property: the write, and if it was accepted up to fifty reads of that property until
   one delivers the value. A rate that has timed out is read once more, for the message.
   */
  predicate Transaction(calls: seq<Call>, p: Property, wanted: Counter, confirmed: bool) {
    && calls != [] && calls[0].Wrote? && calls[0].p == p && calls[0].wanted == wanted
    && (forall i :: 1 <= i < |calls| ==> calls[i].Read? && calls[i].p == p)
    && (if !calls[0].ok then |calls| == 1 && !confirmed
        else if confirmed then
          && 2 <= |calls| <= 51 && Delivers(calls[|calls| - 1], p, wanted)
          && forall i :: 1 <= i < |calls| - 1 ==> !Delivers(calls[i], p, wanted)
        else
          && |calls| == (if p == Rate then 52 else 51)
          && forall i :: 1 <= i <= 50 ==> !Delivers(calls[i], p, wanted))
  }

  /** The write was accepted and none of the reads so far has delivered the value. */
  ghost predicate Awaiting(calls: seq<Call>, p: Property, wanted: Counter, tries: nat) {
    && |calls| == tries + 1 && calls[0] == Wrote(p, wanted, true)
    && forall i :: 1 <= i < |calls| ==> calls[i].Read? && calls[i].p == p && !Delivers(calls[i], p, wanted)
  }

  lemma WriteAnswered(p: Property, wanted: Counter, ok: bool)
    ensures if ok then Awaiting([Wrote(p, wanted, ok)], p, wanted, 0)
            else Transaction([Wrote(p, wanted, ok)], p, wanted, false)
  {
  }

  lemma ReadAnswered(calls: seq<Call>, p: Property, wanted: Counter, tries: nat, ok: bool, actual: Counter)
    requires Awaiting(calls, p, wanted, tries) && tries < 50
    ensures var next := calls + [Read(p, ok, actual)];
      if ok && actual == wanted then Transaction(next, p, wanted, true) else Awaiting(next, p, wanted, tries + 1)
  {
  }

  lemma TimedOut(calls: seq<Call>, p: Property, wanted: Counter, ok: bool, current: Counter)
    requires Awaiting(calls, p, wanted, 50)
    ensures Transaction(if p == Rate then calls + [Read(p, ok, current)] else calls, p, wanted, false)
  {
    var all := if p == Rate then calls + [Read(p, ok, current)] else calls;
    assert forall i :: 1 <= i <= 50 ==> all[i] == calls[i];
  }

  class AudioSystem {
    const script: nat -> Reply
    var next: nat
    ghost var log: seq<Call>

    constructor (script: nat -> Reply)
      ensures log == []
    {
      this.script := script;
      next, log := 0, [];
    }

    ghost function Seen(): Observer
      reads this
    {
      Observe(log)
    }

    method Answer() returns (r: Reply)
      modifies `next
    {
      r := script(next);
      next := next + 1;
    }

    /** Reads one of the two counters, which the device callback advances on its own. */
    method Load(of: Counted) returns (count: Counter)
      modifies this
      ensures log == old(log) + [Loaded(Reading(of, count))]
      ensures Seen() == Feed(old(Seen()), Loaded(Reading(of, count)))
    {
      var r := Answer();
      count := r.value;
      ObserveNext(log, Loaded(Reading(of, count)));
      log := log + [Loaded(Reading(of, count))];
    }

    method Start() returns (ok: bool)
      modifies this
      ensures log == old(log) + [Started(ok)] && Seen() == Feed(old(Seen()), Started(ok))
    {
      var r := Answer();
      ok := r.ok;
      ObserveNext(log, Started(ok));
      log := log + [Started(ok)];
    }

    method Stop() returns (ok: bool)
      modifies this
      ensures log == old(log) + [Stopped(ok)] && Seen() == Feed(old(Seen()), Stopped(ok))
    {
      var r := Answer();
      ok := r.ok;
      ObserveNext(log, Stopped(ok));
      log := log + [Stopped(ok)];
    }

    /** The call can report success without handing back a callback, and the other way round. */
    method CreateProc() returns (ok: bool, proc: bool)
      modifies this
      ensures log == old(log) + [Created(ok, proc)] && Seen() == Feed(old(Seen()), Created(ok, proc))
    {
      var r := Answer();
      ok, proc := r.ok, r.value != 0;
      ObserveNext(log, Created(ok, proc));
      log := log + [Created(ok, proc)];
    }

    method DestroyProc() returns (ok: bool)
      modifies this
      ensures log == old(log) + [Destroyed(ok)] && Seen() == Feed(old(Seen()), Destroyed(ok))
    {
      var r := Answer();
      ok := r.ok;
      ObserveNext(log, Destroyed(ok));
      log := log + [Destroyed(ok)];
    }

    method WriteProperty(p: Property, wanted: Counter) returns (ok: bool)
      modifies this
      ensures log == old(log) + [Wrote(p, wanted, ok)] && Seen() == Feed(old(Seen()), Wrote(p, wanted, ok))
    {
      var r := Answer();
      ok := r.ok;
      ObserveNext(log, Wrote(p, wanted, ok));
      log := log + [Wrote(p, wanted, ok)];
    }

    method ReadProperty(p: Property) returns (ok: bool, value: Counter)
      modifies this
      ensures log == old(log) + [Read(p, ok, value)] && Seen() == Feed(old(Seen()), Read(p, ok, value))
    {
      var r := Answer();
      ok, value := r.ok, r.value;
      ObserveNext(log, Read(p, ok, value));
      log := log + [Read(p, ok, value)];
    }

    /**
     SetAndCheckRate and SetAndCheckUInt32: a write, then up to fifty reads until one delivers the value. A
     rate that has timed out is read once more for the message, and what comes back no longer counts.
     */
    method SetAndCheck(p: Property, wanted: Counter) returns (confirmed: bool, ghost calls: seq<Call>)
      modifies this
      ensures log == old(log) + calls && Transaction(calls, p, wanted, confirmed)
      ensures Seen() == old(Seen()).(
        loads := [], settling := false, settings := old(Seen()).settings + [Setting(p, wanted, confirmed)],
        rate := Seen().rate, bufferFrames := Seen().bufferFrames, patience := Seen().patience,
        refused := Seen().refused)
      ensures old(Seen()).refused ==> Seen().refused
      ensures confirmed ==> Seen().Value(p) == wanted
      ensures !confirmed ==> Seen().patience == 0
      ensures p.BufferFrames? ==> Seen().rate == old(Seen()).rate
      ensures p.Rate? ==> Seen().bufferFrames == old(Seen()).bufferFrames
    {
      hide Transaction, Awaiting, Confirm, Settle, AnswerStop, LastTwo;
      ghost var before := Seen();
      var ok := WriteProperty(p, wanted);
      calls := [Wrote(p, wanted, ok)];
      WriteAnswered(p, wanted, ok);
      if !ok { return false, calls; }
      for attempt := 0 to PATIENCE
        invariant log == old(log) + calls && Awaiting(calls, p, wanted, attempt)
        invariant Seen() == before.(
          loads := [], settling := false, settings := before.settings + [Setting(p, wanted, false)],
          rate := Seen().rate, bufferFrames := Seen().bufferFrames, patience := PATIENCE - attempt)
        invariant p.BufferFrames? ==> Seen().rate == before.rate
        invariant p.Rate? ==> Seen().bufferFrames == before.bufferFrames
      {
        hide Observe;
        var read, actual := ReadProperty(p);
        ConfirmLast(before.settings, p, wanted, actual);
        ReadAnswered(calls, p, wanted, attempt, read, actual);
        calls := calls + [Read(p, read, actual)];
        if read && actual == wanted { return true, calls; }
      }
      ghost var waited := calls;
      if p.Rate? {
        var read, current := ReadProperty(p);
        calls := calls + [Read(p, read, current)];
        TimedOut(waited, p, wanted, read, current);
      } else {
        TimedOut(waited, p, wanted, false, 0);
      }
      confirmed := false;
    }
  }
}
