/** The window evaluation and the final verdict of scripts/audio-stack-health.py, over the reals. */
module StackVerdict {
  import opened Sequences
  import opened StackHealth
  import opened Wrappers

  // ---- Sums and means

  function Sum(xs: seq<real>): real {
    if xs == [] then 0.0 else Sum(xs[..|xs| - 1]) + xs[|xs| - 1]
  }

  lemma SumOf(x: real)
    ensures Sum([]) == 0.0 && Sum([x]) == x
  {
    assert [x][..0] == [];
  }

  lemma {:induction false} SumConcat(xs: seq<real>, ys: seq<real>)
    ensures Sum(xs + ys) == Sum(xs) + Sum(ys)
  {
    if ys == [] {
      assert xs + ys == xs;
    } else {
      assert (xs + ys)[..|xs + ys| - 1] == xs + ys[..|ys| - 1];
      SumConcat(xs, ys[..|ys| - 1]);
    }
  }

  function Mean(xs: seq<real>): (mean: real)
    requires xs != []
    ensures mean * |xs| as real == Sum(xs)
  {
    Sum(xs) / |xs| as real
  }

  ghost predicate EqualSizes<T>(groups: seq<seq<T>>, n: nat) {
    forall i :: 0 <= i < |groups| ==> |groups[i]| == n
  }

  lemma OneMoreGroup(k: nat, n: nat)
    ensures (k + 1) * n == k * n + n
  {
  }

  lemma {:induction false} FlattenLength<T>(groups: seq<seq<T>>, n: nat)
    requires EqualSizes(groups, n)
    ensures |Flatten(groups)| == |groups| * n
  {
    if groups == [] {
    } else {
      FlattenLength(groups[..|groups| - 1], n);
      OneMoreGroup(|groups| - 1, n);
    }
  }

  ghost predicate SumsBetween(groups: seq<seq<real>>, low: real, high: real) {
    forall i :: 0 <= i < |groups| ==> low <= Sum(groups[i]) <= high
  }

  lemma {:induction false} SumFlattenStep(groups: seq<seq<real>>)
    requires groups != []
    ensures Sum(Flatten(groups)) == Sum(Flatten(groups[..|groups| - 1])) + Sum(groups[|groups| - 1])
  {
    SumConcat(Flatten(groups[..|groups| - 1]), groups[|groups| - 1]);
  }

  /** x added up k times. */
  function Times(x: real, k: nat): real {
    if k == 0 then 0.0 else Times(x, k - 1) + x
  }

  lemma {:induction false} TimesIsProduct(x: real, k: nat)
    ensures Times(x, k) == x * k as real
  {
    if k == 0 {
    } else {
      TimesIsProduct(x, k - 1);
      assert x * k as real == x * ((k - 1) as real + 1.0) == x * (k - 1) as real + x;
    }
  }

  lemma {:induction false} SumOfGroups(groups: seq<seq<real>>, low: real, high: real)
    requires SumsBetween(groups, low, high)
    ensures Times(low, |groups|) <= Sum(Flatten(groups)) <= Times(high, |groups|)
  {
    if groups == [] {
      assert Sum(Flatten(groups)) == 0.0;
    } else {
      SumOfGroups(groups[..|groups| - 1], low, high);
      SumFlattenStep(groups);
    }
  }

  lemma {:induction false} ExtremeSums(groups: seq<seq<real>>) returns (lowest: nat, highest: nat)
    requires groups != []
    ensures lowest < |groups| && highest < |groups|
    ensures SumsBetween(groups, Sum(groups[lowest]), Sum(groups[highest]))
  {
    if |groups| == 1 {
      lowest, highest := 0, 0;
    } else {
      var last := |groups| - 1;
      lowest, highest := ExtremeSums(groups[..last]);
      if Sum(groups[last]) < Sum(groups[lowest]) { lowest := last; }
      if Sum(groups[last]) > Sum(groups[highest]) { highest := last; }
      forall i | 0 <= i < |groups| ensures Sum(groups[lowest]) <= Sum(groups[i]) <= Sum(groups[highest]) {
        if i < last { assert groups[..last][i] == groups[i]; }
      }
    }
  }

  lemma Negated(s: real, d: real)
    requires d != 0.0
    ensures -s / d == -(s / d)
  {
    var q := s / d;
    assert q * d == s;
    assert -q * d == -s;
  }

  lemma NegativeProduct(x: real, y: real)
    requires x < 0.0 && y > 0.0
    ensures x * y < 0.0
  {
  }

  lemma MeanOrder(s: real, m: real, total: real, k: real)
    requires m > 0.0 && k > 0.0 && s * k <= total
    ensures k * m > 0.0 && s / m <= total / (k * m)
  {
    var d := k * m;
    assert d > 0.0;
    var p, q := s / m, total / d;
    assert p * m == s && q * d == total;
    assert p * d == s * k;
    assert (q - p) * d == total - s * k;
    if q - p < 0.0 { NegativeProduct(q - p, d); }
  }

  lemma MeansOfSums(low: real, total: real, high: real, k: nat, n: nat)
    requires k > 0 && n > 0 && low * k as real <= total <= high * k as real
    ensures k * n > 0 && low / n as real <= total / (k * n) as real <= high / n as real
  {
    var x, y := k as real, n as real;
    assert (k * n) as real == x * y;
    MeanOrder(low, y, total, x);
    MeanOrder(-high, y, -total, x);
    Negated(high, y);
    Negated(total, x * y);
  }

  /** With equal sizes, some group's mean is at most, and some at least, the mean of all. */
  lemma MeanAmongGroups(groups: seq<seq<real>>, n: nat) returns (lowest: nat, highest: nat)
    requires groups != [] && n > 0 && EqualSizes(groups, n)
    ensures lowest < |groups| && highest < |groups| && Flatten(groups) != []
    ensures Mean(groups[lowest]) <= Mean(Flatten(groups)) <= Mean(groups[highest])
  {
    hide Sum, Flatten;
    lowest, highest := ExtremeSums(groups);
    FlattenLength(groups, n);
    SumOfGroups(groups, Sum(groups[lowest]), Sum(groups[highest]));
    TimesIsProduct(Sum(groups[lowest]), |groups|);
    TimesIsProduct(Sum(groups[highest]), |groups|);
    MeansOfSums(Sum(groups[lowest]), Sum(Flatten(groups)), Sum(groups[highest]), |groups|, n);
  }

  // ---- One evaluation

  /** What a sample is summed over: every watched row, or the rows with one label. */
  datatype Measure = Watched | Labelled(name: string)
  {
    predicate Covers(row: Row) { Watched? || name in row.labels }
  }

  const CORE_AUDIO := Labelled("coreaudiod")
  const DRIVER := Labelled("opena8dj_driver")

  /** The n-th row is the first of its identity. */
  predicate FirstOfIdentity(rows: seq<Row>, n: nat)
    requires n < |rows|
  {
    forall i :: 0 <= i < n ==> rows[i].id != rows[n].id
  }

  /** The total share of the covered rows of a sample, each identity counted once, at its first row. */
  function Reading(m: Measure, rows: seq<Row>): real {
    if rows == [] then 0.0
    else
      var n := |rows| - 1;
      Reading(m, rows[..n]) + (if FirstOfIdentity(rows, n) && m.Covers(rows[n]) then rows[n].cpuPct else 0.0)
  }

  /** A second row of an identity changes no reading. */
  lemma {:induction false} DuplicateIgnored(m: Measure, rows: seq<Row>, i: nat, row: Row)
    requires i < |rows| && rows[i].id == row.id
    ensures Reading(m, rows + [row]) == Reading(m, rows)
  {
    var all := rows + [row];
    assert all[..|rows|] == rows;
    assert all[i].id == all[|rows|].id;
  }

  /** A row of an identity not seen before adds its share if it is covered, and no rows add up to nothing. */
  lemma {:induction false} NewIdentityCounts(m: Measure, rows: seq<Row>, row: Row)
    requires forall i :: 0 <= i < |rows| ==> rows[i].id != row.id
    ensures Reading(m, []) == 0.0
    ensures Reading(m, rows + [row])
         == Reading(m, rows) + (if m.Watched? || m.name in row.labels then row.cpuPct else 0.0)
  {
    assert (rows + [row])[..|rows|] == rows;
  }

  function Readings(m: Measure, samples: seq<seq<Row>>): (r: seq<real>)
    ensures |r| == |samples|
  {
    seq<real>(|samples|, i requires 0 <= i < |samples| => Reading(m, samples[i]))
  }

  /** A sample may come with an idle percentage of its own. */
  datatype Sample = Sample(rows: seq<Row>, idle: Option<real>)

  function RowsOf(samples: seq<Sample>): (r: seq<seq<Row>>)
    ensures |r| == |samples|
  {
    seq<seq<Row>>(|samples|, i requires 0 <= i < |samples| => samples[i].rows)
  }

  /** The idle percentages that come with samples, in order. */
  function OwnIdles(samples: seq<Sample>): seq<real> {
    if samples == [] then []
    else
      var last := samples[|samples| - 1];
      OwnIdles(samples[..|samples| - 1]) + (if last.idle.Some? then [last.idle.value] else [])
  }

  datatype Thresholds = Thresholds(coreAudio: real, total: real, globalIdle: Option<real>)
  datatype Violation =
    | WatchedTotal | CoreAudioCpu | DriverCpu | IdleLow | IdleMissing
    | EnumerationFailed | WindowFailed
  datatype Status = Pass | Fail | InfraError
  datatype Evaluation = Evaluation(status: Status, violations: set<Violation>)

  ghost predicate Monotone(round: real -> real) {
    forall x: real, y: real :: x <= y ==> round(x) <= round(y)
  }

  /** A threshold is exceeded by the rounded mean. */
  predicate Exceeds(round: real -> real, m: Measure, samples: seq<seq<Row>>, limit: real)
    requires samples != []
  {
    round(Mean(Readings(m, samples))) > limit
  }

  /** Every threshold is met. */
  predicate Healthy(round: real -> real, samples: seq<seq<Row>>, idles: seq<real>, t: Thresholds)
    requires samples != []
  {
    && !Exceeds(round, Watched, samples, t.total)
    && !Exceeds(round, CORE_AUDIO, samples, t.coreAudio)
    && !Exceeds(round, DRIVER, samples, t.coreAudio)
    && (t.globalIdle.Some? ==> idles != [] && round(Mean(idles)) >= t.globalIdle.value)
  }

  /** What all of it means: the rounded means of the watched rows, of the two labels and of the idle percentages. */
  ghost predicate WithinThresholds(round: real -> real, samples: seq<seq<Row>>, idles: seq<real>, t: Thresholds)
    requires samples != []
  {
    && round(Mean(Readings(Watched, samples))) <= t.total
    && round(Mean(Readings(Labelled("coreaudiod"), samples))) <= t.coreAudio
    && round(Mean(Readings(Labelled("opena8dj_driver"), samples))) <= t.coreAudio
    && (t.globalIdle.Some? ==> idles != [] && t.globalIdle.value <= round(Mean(idles)))
  }

  lemma HealthyIsWithin(round: real -> real, samples: seq<seq<Row>>, idles: seq<real>, t: Thresholds)
    requires samples != []
    ensures Healthy(round, samples, idles, t) <==> WithinThresholds(round, samples, idles, t)
  {
    hide Readings, Mean;
  }

  /** What an evaluation may hold against the samples. */
  predicate Violates(v: Violation, round: real -> real, samples: seq<seq<Row>>, idles: seq<real>, t: Thresholds)
    requires samples != []
  {
    match v
    case WatchedTotal => Exceeds(round, Watched, samples, t.total)
    case CoreAudioCpu => Exceeds(round, CORE_AUDIO, samples, t.coreAudio)
    case DriverCpu => Exceeds(round, DRIVER, samples, t.coreAudio)
    case IdleLow => idles != [] && t.globalIdle.Some? && round(Mean(idles)) < t.globalIdle.value
    case IdleMissing => idles == [] && t.globalIdle.Some?
    case _ => false
  }

  lemma ViolationsMean(round: real -> real, samples: seq<seq<Row>>, idles: seq<real>, t: Thresholds)
    requires samples != []
    ensures Violates(WatchedTotal, round, samples, idles, t) <==> t.total < round(Mean(Readings(Watched, samples)))
    ensures Violates(CoreAudioCpu, round, samples, idles, t) <==>
            t.coreAudio < round(Mean(Readings(Labelled("coreaudiod"), samples)))
    ensures Violates(DriverCpu, round, samples, idles, t) <==>
            t.coreAudio < round(Mean(Readings(Labelled("opena8dj_driver"), samples)))
    ensures t.globalIdle.None? ==>
      !Violates(IdleLow, round, samples, idles, t) && !Violates(IdleMissing, round, samples, idles, t)
    ensures t.globalIdle.Some? ==>
      && (Violates(IdleMissing, round, samples, idles, t) <==> idles == [])
      && (Violates(IdleLow, round, samples, idles, t) <==>
            idles != [] && round(Mean(idles)) < t.globalIdle.value)
    ensures !Violates(EnumerationFailed, round, samples, idles, t) && !Violates(WindowFailed, round, samples, idles, t)
  {
    hide Readings, Mean;
  }

  /** The rows of one sample, added up as evaluate_samples does: skipping identities already seen. */
  method ReadSample(rows: seq<Row>) returns (total: real, coreAudio: real, driver: real)
    ensures total == Reading(Watched, rows)
    ensures coreAudio == Reading(CORE_AUDIO, rows) && driver == Reading(DRIVER, rows)
  {
    var seen: set<Identity> := {};
    total, coreAudio, driver := 0.0, 0.0, 0.0;
    for n := 0 to |rows|
      invariant forall id :: id in seen <==> exists i :: 0 <= i < n && rows[i].id == id
      invariant total == Reading(Watched, rows[..n])
      invariant coreAudio == Reading(CORE_AUDIO, rows[..n]) && driver == Reading(DRIVER, rows[..n])
    {
      var row := rows[n];
      assert rows[..n + 1][..n] == rows[..n];
      assert FirstOfIdentity(rows[..n + 1], n) <==> row.id !in seen;
      if row.id !in seen {
        seen := seen + {row.id};
        total := total + row.cpuPct;
        if CORE_AUDIO.name in row.labels { coreAudio := coreAudio + row.cpuPct; }
        if DRIVER.name in row.labels { driver := driver + row.cpuPct; }
      }
    }
    assert rows[..|rows|] == rows;
  }

  /** The loop of evaluate_samples. */
  method ReadSamples(samples: seq<Sample>, given: seq<real>)
    returns (totals: seq<real>, cores: seq<real>, drivers: seq<real>, idles: seq<real>)
    ensures |totals| == |cores| == |drivers| == |samples|
    ensures totals == Readings(Watched, RowsOf(samples))
    ensures cores == Readings(CORE_AUDIO, RowsOf(samples)) && drivers == Readings(DRIVER, RowsOf(samples))
    ensures idles == given + OwnIdles(samples)
  {
    hide Reading;
    totals, cores, drivers, idles := [], [], [], given;
    for k := 0 to |samples|
      invariant totals == Readings(Watched, RowsOf(samples[..k]))
      invariant cores == Readings(CORE_AUDIO, RowsOf(samples[..k]))
      invariant drivers == Readings(DRIVER, RowsOf(samples[..k]))
      invariant idles == given + OwnIdles(samples[..k])
    {
      assert samples[..k + 1][..k] == samples[..k];
      if samples[k].idle.Some? { idles := idles + [samples[k].idle.value]; }
      var total, core, driver := ReadSample(samples[k].rows);
      totals, cores, drivers := totals + [total], cores + [core], drivers + [driver];
    }
    assert samples[..|samples|] == samples;
  }

  /**
   evaluate_samples; None stands for its error on an empty list. The idle percentages are those given and
   those that come with the samples, and are asked for only when there is a threshold for them.
   */
  method EvaluateSamples(round: real -> real, samples: seq<Sample>, t: Thresholds, given: seq<real>)
    returns (r: Option<Evaluation>)
    ensures r.None? <==> samples == []
    ensures var rows, idles := RowsOf(samples), given + OwnIdles(samples);
      r.Some? ==>
        && (r.value.status == Pass <==> WithinThresholds(round, rows, idles, t))
        && (r.value.status == InfraError <==> idles == [] && t.globalIdle.Some?)
        && forall v :: v in r.value.violations <==> Violates(v, round, rows, idles, t)
  {
    hide Reading, Readings, Mean, RowsOf, OwnIdles;
    var totals, cores, drivers, idles := ReadSamples(samples, given);
    if samples == [] { return None; }
    var violations: set<Violation> := {};
    if round(Mean(totals)) > t.total { violations := violations + {WatchedTotal}; }
    if round(Mean(cores)) > t.coreAudio { violations := violations + {CoreAudioCpu}; }
    if round(Mean(drivers)) > t.coreAudio { violations := violations + {DriverCpu}; }
    var status := Pass;
    if idles != [] {
      if t.globalIdle.Some? && round(Mean(idles)) < t.globalIdle.value { violations := violations + {IdleLow}; }
    } else if t.globalIdle.Some? {
      status := InfraError;
      violations := violations + {IdleMissing};
    }
    if violations != {} && status != InfraError { status := Fail; }
    r := Some(Evaluation(status, violations));
  }

  // ---- The verdict

  datatype Enumeration = Passed | NotConfigured | Failed | Hung | Signaled | Broken

  /** The outcome of enumerate_window: without a binary nothing is run, and 124 stands for a run past its deadline. */
  function EnumerationOf(exitCode: Option<nat>): (e: Enumeration)
    ensures e == NotConfigured <==> exitCode.None?
    ensures e == Passed <==> exitCode == Some(0)
    ensures e == Hung <==> exitCode == Some(124)
    ensures e == Broken <==> exitCode == Some(126) || exitCode == Some(127)
    ensures e == Signaled <==> exitCode.Some? && exitCode.value >= 128
  {
    match exitCode
    case None => NotConfigured
    case Some(code) =>
      if code == 0 then Passed
      else if code == 124 then Hung
      else if code >= 128 then Signaled
      else if code in {126, 127} then Broken
      else Failed
  }

  datatype Window = Window(samples: seq<seq<Row>>, idles: seq<real>, enumeration: Enumeration)

  /** A window's status: its evaluation, overruled when enumerating the devices failed. */
  function WindowStatus(round: real -> real, w: Window, t: Thresholds): Status
    requires w.samples != []
  {
    if w.enumeration in {Hung, Signaled, Broken} then InfraError
    else if w.enumeration == Failed then Fail
    else if w.idles == [] && t.globalIdle.Some? then InfraError
    else if Healthy(round, w.samples, w.idles, t) then Pass else Fail
  }

  ghost predicate StatusMeans(status: Status, round: real -> real, w: Window, t: Thresholds) {
    && (w.enumeration == NotConfigured || w.enumeration == Passed ==>
          && w.samples != []
          && (status == Pass <==> WithinThresholds(round, w.samples, w.idles, t))
          && (status == InfraError <==> w.idles == [] && t.globalIdle.Some?))
    && (w.enumeration == Hung || w.enumeration == Signaled || w.enumeration == Broken ==> status == InfraError)
    && (w.enumeration == Failed ==> status == Fail)
  }

  /**
   The command is often run without enumerating any devices; then, as when enumerating them succeeds, the
   evaluation alone decides. A run of the enumeration that hangs, is killed or cannot be made is an
   infrastructure error, and one that fails is a failure, however healthy the window.
   */
  lemma WindowStatusMeans(round: real -> real, w: Window, t: Thresholds)
    requires w.samples != []
    ensures StatusMeans(WindowStatus(round, w, t), round, w, t)
  {
    hide Readings, Mean;
  }

  /** Every window holds n samples, each with its idle percentage. */
  ghost predicate EqualWindows(windows: seq<Window>, n: nat) {
    forall i :: 0 <= i < |windows| ==> |windows[i].samples| == n && |windows[i].idles| == n
  }

  function AllSamples(windows: seq<Window>): (samples: seq<seq<Row>>)
    ensures windows != [] && windows[|windows| - 1].samples != [] ==> samples != []
  {
    if windows == [] then []
    else AllSamples(windows[..|windows| - 1]) + windows[|windows| - 1].samples
  }

  function AllIdles(windows: seq<Window>): seq<real> {
    if windows == [] then []
    else AllIdles(windows[..|windows| - 1]) + windows[|windows| - 1].idles
  }

  /** All samples of all windows together give cause for this violation. */
  ghost predicate ViolatedOverall(v: Violation, round: real -> real, windows: seq<Window>, t: Thresholds) {
    var samples := AllSamples(windows);
    samples != [] && Violates(v, round, samples, AllIdles(windows), t)
  }

  function ReadingGroups(m: Measure, windows: seq<Window>): seq<seq<real>> {
    seq<seq<real>>(|windows|, i requires 0 <= i < |windows| => Readings(m, windows[i].samples))
  }

  function IdleGroups(windows: seq<Window>): seq<seq<real>> {
    seq<seq<real>>(|windows|, i requires 0 <= i < |windows| => windows[i].idles)
  }

  lemma ReadingsConcat(m: Measure, first: seq<seq<Row>>, second: seq<seq<Row>>)
    ensures Readings(m, first + second) == Readings(m, first) + Readings(m, second)
  {
    hide Reading;
  }

  lemma {:induction false} GroupsFlatten(m: Measure, windows: seq<Window>)
    ensures Flatten(ReadingGroups(m, windows)) == Readings(m, AllSamples(windows))
  {
    hide Reading;
    if windows == [] {
    } else {
      var last := |windows| - 1;
      GroupsFlatten(m, windows[..last]);
      assert ReadingGroups(m, windows)[..last] == ReadingGroups(m, windows[..last]);
      ReadingsConcat(m, AllSamples(windows[..last]), windows[last].samples);
    }
  }

  lemma {:induction false} IdlesFlatten(windows: seq<Window>)
    ensures Flatten(IdleGroups(windows)) == AllIdles(windows)
  {
    if windows == [] {
    } else {
      var last := |windows| - 1;
      IdlesFlatten(windows[..last]);
      assert IdleGroups(windows)[..last] == IdleGroups(windows[..last]);
    }
  }

  /** If no window exceeds a limit, all samples together do not. */
  lemma {:induction false} MeasureCarriesOver(
    round: real -> real, m: Measure, windows: seq<Window>, n: nat, limit: real)
    requires Monotone(round) && windows != [] && n > 0 && EqualWindows(windows, n)
    requires forall i :: 0 <= i < |windows| ==>
               windows[i].samples != [] && !Exceeds(round, m, windows[i].samples, limit)
    ensures AllSamples(windows) != [] && !Exceeds(round, m, AllSamples(windows), limit)
  {
    hide Mean, Flatten, Reading, AllSamples;
    var groups := ReadingGroups(m, windows);
    GroupsFlatten(m, windows);
    var _, highest := MeanAmongGroups(groups, n);
    assert groups[highest] == Readings(m, windows[highest].samples);
  }

  lemma {:induction false} IdleCarriesOver(round: real -> real, windows: seq<Window>, n: nat, limit: real)
    requires Monotone(round) && windows != [] && n > 0 && EqualWindows(windows, n)
    requires forall i :: 0 <= i < |windows| ==> windows[i].idles != [] && round(Mean(windows[i].idles)) >= limit
    ensures AllIdles(windows) != [] && round(Mean(AllIdles(windows))) >= limit
  {
    hide Mean, Flatten, Reading;
    var groups := IdleGroups(windows);
    IdlesFlatten(windows);
    var lowest, _ := MeanAmongGroups(groups, n);
    assert groups[lowest] == windows[lowest].idles;
  }

  /** Windows that all pass make an overall evaluation that passes. */
  lemma {:induction false} HealthCarriesOver(round: real -> real, windows: seq<Window>, n: nat, t: Thresholds)
    requires Monotone(round) && windows != [] && n > 0 && EqualWindows(windows, n)
    requires forall i :: 0 <= i < |windows| ==>
               windows[i].samples != [] && Healthy(round, windows[i].samples, windows[i].idles, t)
    ensures AllSamples(windows) != [] && Healthy(round, AllSamples(windows), AllIdles(windows), t)
  {
    MeasureCarriesOver(round, Watched, windows, n, t.total);
    MeasureCarriesOver(round, CORE_AUDIO, windows, n, t.coreAudio);
    MeasureCarriesOver(round, DRIVER, windows, n, t.coreAudio);
    if t.globalIdle.Some? { IdleCarriesOver(round, windows, n, t.globalIdle.value); }
  }

  /** Samples as main takes them: rows alone, with the idle percentages kept beside them. */
  function Plain(samples: seq<seq<Row>>): (r: seq<Sample>)
    ensures |r| == |samples|
  {
    seq<Sample>(|samples|, i requires 0 <= i < |samples| => Sample(samples[i], None))
  }

  lemma {:induction false} PlainHasNoIdles(samples: seq<seq<Row>>)
    ensures RowsOf(Plain(samples)) == samples && OwnIdles(Plain(samples)) == []
  {
    if samples == [] {
    } else {
      PlainHasNoIdles(samples[..|samples| - 1]);
      assert Plain(samples)[..|samples| - 1] == Plain(samples[..|samples| - 1]);
    }
  }

  predicate EnumerationFails(w: Window) {
    w.enumeration != Passed && w.enumeration != NotConfigured
  }

  /** One pass through the window loop: evaluate, then let a failed enumeration overrule. */
  method JudgeWindow(round: real -> real, w: Window, t: Thresholds) returns (e: Evaluation)
    requires w.samples != []
    ensures e.status == WindowStatus(round, w, t)
    ensures forall v :: v in e.violations <==>
              Violates(v, round, w.samples, w.idles, t) || (v == EnumerationFailed && EnumerationFails(w))
  {
    hide Healthy, WithinThresholds, Exceeds, Violates, RowsOf, OwnIdles, Plain;
    HealthyIsWithin(round, w.samples, w.idles, t);
    PlainHasNoIdles(w.samples);
    assert w.idles + [] == w.idles;
    var evaluated := EvaluateSamples(round, Plain(w.samples), t, w.idles);
    e := evaluated.value;
    if w.enumeration != Passed && w.enumeration != NotConfigured {
      e := Evaluation(if w.enumeration in {Hung, Signaled, Broken} then InfraError else Fail,
                      e.violations + {EnumerationFailed});
    }
  }

  /**
   The verdict of main on windows of equal size: PASS exactly when every window passes, and INFRA_ERROR
   exactly when some window is.
   */
  method Judge(round: real -> real, windows: seq<Window>, n: nat, t: Thresholds)
    returns (verdict: Evaluation, statuses: seq<Status>)
    requires Monotone(round) && windows != [] && n > 0 && EqualWindows(windows, n)
    ensures |statuses| == |windows|
    ensures forall i :: 0 <= i < |windows| ==> statuses[i] == WindowStatus(round, windows[i], t)
    ensures verdict.status == Pass <==> forall i :: 0 <= i < |statuses| ==> statuses[i] == Pass
    ensures verdict.status == InfraError <==> InfraError in statuses
    ensures forall v :: v in verdict.violations <==>
              ViolatedOverall(v, round, windows, t) || (v == WindowFailed && verdict.status != Pass)
  {
    hide Healthy, WithinThresholds, Exceeds, Mean, Violates, RowsOf, OwnIdles, Plain;
    statuses := [];
    var samples: seq<seq<Row>> := [];
    var idles: seq<real> := [];
    for k := 0 to |windows|
      invariant |statuses| == k
      invariant forall i :: 0 <= i < k ==> statuses[i] == WindowStatus(round, windows[i], t)
      invariant samples == AllSamples(windows[..k]) && idles == AllIdles(windows[..k])
      invariant k > 0 ==> samples != [] && idles != []
    {
      var e := JudgeWindow(round, windows[k], t);
      assert windows[..k + 1][..k] == windows[..k];
      samples, idles := samples + windows[k].samples, idles + windows[k].idles;
      statuses := statuses + [e.status];
    }
    assert windows[..|windows|] == windows;
    PlainHasNoIdles(samples);
    HealthyIsWithin(round, samples, idles, t);
    assert idles + [] == idles;
    var overall := EvaluateSamples(round, Plain(samples), t, idles);
    verdict := overall.value;
    if exists i :: 0 <= i < |statuses| && statuses[i] != Pass {
      var status := if InfraError in statuses then InfraError
                    else if verdict.status != InfraError then Fail else verdict.status;
      verdict := Evaluation(status, verdict.violations + {WindowFailed});
    } else {
      HealthCarriesOver(round, windows, n, t);
    }
  }

  // ---- The whole check

  /** Some turn of some window cannot be taken. */
  ghost predicate RunStalls(baseline: seq<Row>, feeds: seq<Feed>) {
    exists w :: 0 <= w < |feeds| && Stalls(RowsUpTo(baseline, feeds, w), feeds[w])
  }

  /** The windows hold what was sampled in them, and the outcome of the enumeration at their end. */
  ghost predicate Measured(
    baseline: seq<Row>, feeds: seq<Feed>, enumerations: seq<Enumeration>, windows: seq<Window>)
  {
    && |windows| == |feeds| == |enumerations|
    && forall w :: 0 <= w < |feeds| ==>
         && windows[w].enumeration == enumerations[w]
         && PricedWindow(RowsUpTo(baseline, feeds, w), feeds[w], Bucket(windows[w].samples, windows[w].idles))
  }

  ghost predicate EveryWindowHas(feeds: seq<Feed>, n: nat) {
    forall w :: 0 <= w < |feeds| ==> |feeds[w].snapshots| == n
  }

  function ToWindows(buckets: seq<Bucket>, enumerations: seq<Enumeration>): (windows: seq<Window>)
    requires |buckets| == |enumerations|
    ensures |windows| == |buckets|
  {
    seq<Window>(|buckets|, w requires 0 <= w < |buckets| =>
      Window(buckets[w].samples, buckets[w].idles, enumerations[w]))
  }

  lemma BucketsFillWindows(
    baseline: seq<Row>, feeds: seq<Feed>, enumerations: seq<Enumeration>, buckets: seq<Bucket>, n: nat)
    requires PricedWindows(baseline, feeds, buckets) && |enumerations| == |feeds| && EveryWindowHas(feeds, n)
    ensures Measured(baseline, feeds, enumerations, ToWindows(buckets, enumerations))
    ensures EqualWindows(ToWindows(buckets, enumerations), n)
  {
    hide Sampled, RowsUpTo;
    var windows := ToWindows(buckets, enumerations);
    forall w | 0 <= w < |feeds|
      ensures PricedWindow(RowsUpTo(baseline, feeds, w), feeds[w], Bucket(windows[w].samples, windows[w].idles))
      ensures |windows[w].samples| == n && |windows[w].idles| == n
    {
      assert Bucket(windows[w].samples, windows[w].idles) == buckets[w];
    }
  }

  function Enumerations(exitCodes: seq<Option<nat>>): (r: seq<Enumeration>)
    ensures |r| == |exitCodes| && forall w :: 0 <= w < |r| ==> r[w] == EnumerationOf(exitCodes[w])
  {
    seq<Enumeration>(|exitCodes|, w requires 0 <= w < |exitCodes| => EnumerationOf(exitCodes[w]))
  }

  /**
   main, from what it reads: its exit code is 0 exactly when every turn could be taken and every window is
   within its thresholds with no failed enumeration, and 2 exactly when some turn could not be taken or some
   enumeration hung, was killed or could not be made.
   */
  method RunHealthCheck(round: real -> real, baseline: seq<Row>, feeds: seq<Feed>, exitCodes: seq<Option<nat>>,
                        n: nat, t: Thresholds)
    returns (code: nat, windows: seq<Window>)
    requires Monotone(round) && feeds != [] && n > 0 && |exitCodes| == |feeds| && EveryWindowHas(feeds, n)
    ensures code <= 2 && |windows| <= |feeds|
    ensures !RunStalls(baseline, feeds) ==>
      Measured(baseline, feeds, Enumerations(exitCodes), windows) && EqualWindows(windows, n)
    ensures code == 0 <==>
              && !RunStalls(baseline, feeds)
              && forall w :: 0 <= w < |windows| ==>
                   && (exitCodes[w] == None || exitCodes[w] == Some(0))
                   && windows[w].samples != [] && WithinThresholds(round, windows[w].samples, windows[w].idles, t)
    ensures code == 2 <==>
              || RunStalls(baseline, feeds)
              || exists w :: 0 <= w < |exitCodes| && exitCodes[w].Some? &&
                   (exitCodes[w].value == 124 || exitCodes[w].value >= 126)
  {
    hide PricedWindows, PricedWindow, WindowStatus, Stalls, ViolatedOverall, WithinThresholds;
    var enumerations := Enumerations(exitCodes);
    var buckets := CollectRun(baseline, feeds);
    if buckets.None? { return 2, []; }
    assert |buckets.value| == |feeds| by { LengthsAgree(baseline, feeds, buckets.value); }
    windows := ToWindows(buckets.value, enumerations);
    BucketsFillWindows(baseline, feeds, enumerations, buckets.value, n);
    var verdict, statuses := Judge(round, windows, n, t);
    forall w | 0 <= w < |windows|
      ensures windows[w].enumeration == EnumerationOf(exitCodes[w]) && windows[w].idles != []
      ensures windows[w].samples != []
    {
      assert |windows[w].samples| == |windows[w].idles| == n;
    }
    forall w | 0 <= w < |windows| ensures StatusMeans(statuses[w], round, windows[w], t) {
      WindowStatusMeans(round, windows[w], t);
    }
    code := match verdict.status case Pass => 0 case InfraError => 2 case Fail => 1;
  }
}
