/** Host idle time, CPU accounting by process identity and the sampling loop of scripts/audio-stack-health.py. */
module StackHealth {
  import opened Words
  import opened Wrappers

  // ---- Host idle time

  /** The masked difference of two 32-bit tick counters. */
  function TickDelta(before: int, now: int): (d: nat)
    ensures d < UINT32
  {
    (now - before) % UINT32
  }

  datatype Ticks = Ticks(user: int, system: int, idle: int, nice: int)

  function TickTotal(previous: Ticks, current: Ticks): nat {
    TickDelta(previous.user, current.user) + TickDelta(previous.system, current.system)
    + TickDelta(previous.idle, current.idle) + TickDelta(previous.nice, current.nice)
  }

  lemma QuotientRange(p: real, t: real)
    requires 0.0 <= p <= 100.0 * t && t > 0.0
    ensures 0.0 <= p / t <= 100.0
  {
  }

  lemma PercentBounds(part: nat, total: nat)
    requires part <= total && total > 0
    ensures 0.0 <= 100.0 * part as real / total as real <= 100.0
  {
    var p, t := part as real, total as real;
    var q := 100.0 * p / t;
    QuotientRange(100.0 * p, t);
  }

  /** cpu_idle_percent; None when no counter advanced. */
  function CpuIdlePercent(previous: Ticks, current: Ticks): (r: Option<real>)
    ensures r.None? <==> TickTotal(previous, current) == 0
    ensures r.None? <==>
      && (current.user - previous.user) % 0x1_0000_0000 == 0
      && (current.system - previous.system) % 0x1_0000_0000 == 0
      && (current.idle - previous.idle) % 0x1_0000_0000 == 0
      && (current.nice - previous.nice) % 0x1_0000_0000 == 0
    ensures r.Some? ==> 0.0 <= r.value <= 100.0
  {
    var total := TickTotal(previous, current);
    if total == 0 then None
    else
      var idle := TickDelta(previous.idle, current.idle);
      PercentBounds(idle, total);
      Some(100.0 * idle as real / total as real)
  }

  lemma MaskedDifference(t: int, n: nat)
    requires n < UINT32
    ensures TickDelta(t % UINT32, (t + n) % UINT32) == n
  {
    var a, b := t % UINT32, (t + n) % UINT32;
    assert b == a + n || b == a + n - UINT32;
  }

  /** Across wraparound the percentage is that of the true ticks, when no counter gains 2^32 between samples. */
  lemma IdleAcrossWrap(t: Ticks, user: nat, system: nat, idle: nat, nice: nat)
    requires user < 0x1_0000_0000 && system < 0x1_0000_0000 && idle < 0x1_0000_0000 && nice < 0x1_0000_0000
    ensures CpuIdlePercent(
              Ticks(t.user % 0x1_0000_0000, t.system % 0x1_0000_0000, t.idle % 0x1_0000_0000, t.nice % 0x1_0000_0000),
              Ticks((t.user + user) % 0x1_0000_0000, (t.system + system) % 0x1_0000_0000,
                    (t.idle + idle) % 0x1_0000_0000, (t.nice + nice) % 0x1_0000_0000)) ==
            var total := user + system + idle + nice;
            if total == 0 then None else Some(100.0 * idle as real / total as real)
  {
    hide TickDelta;
    MaskedDifference(t.user, user);
    MaskedDifference(t.system, system);
    MaskedDifference(t.idle, idle);
    MaskedDifference(t.nice, nice);
  }

  // ---- CPU time by process identity

  datatype Identity = Identity(pid: nat, birth: string, boot: string)

  datatype Row = Row(id: Identity, labels: set<string>, cpuNanos: int, cpuPct: real)

  type Counters = map<Identity, int>

  const NANOS_PER_SECOND := 1000000000.0

  /** The share of one core between two counters, or zero without an earlier one. */
  function Percent(earlier: Option<int>, value: int, elapsed: real): real
    requires elapsed > 0.0
  {
    if earlier.None? then 0.0 else 100.0 * (value - earlier.value) as real / (elapsed * NANOS_PER_SECOND)
  }

  predicate MovedBack(row: Row, previous: Counters, counters: Counters) {
    row.id in counters && row.id in previous && counters[row.id] < previous[row.id]
  }

  /** The row as updated in place. */
  function Priced(row: Row, previous: Counters, counters: Counters, elapsed: real): Row
    requires elapsed > 0.0
  {
    if row.id in counters
    then row.(cpuPct := Percent(Get(previous, row.id), counters[row.id], elapsed))
    else row
  }

  function Kept(rows: seq<Row>, counters: Counters): seq<Row> {
    if rows == [] then []
    else
      var front, last := Kept(rows[..|rows| - 1], counters), rows[|rows| - 1];
      if last.id in counters then front + [last] else front
  }

  ghost predicate IsRestriction(current: Counters, counters: Counters, rows: seq<Row>) {
    forall id :: (id in current <==> id in counters && exists i :: 0 <= i < |rows| && rows[i].id == id)
              && (id in current ==> current[id] == counters[id])
  }

  lemma {:induction false} KeptBySameKeys(rows: seq<Row>, current: Counters, counters: Counters)
    requires forall i :: 0 <= i < |rows| ==> (rows[i].id in current <==> rows[i].id in counters)
    ensures Kept(rows, current) == Kept(rows, counters)
  {
    if rows == [] {
    } else {
      KeptBySameKeys(rows[..|rows| - 1], current, counters);
    }
  }

  lemma {:induction false} KeptByRestriction(rows: seq<Row>, current: Counters, counters: Counters)
    requires IsRestriction(current, counters, rows)
    ensures Kept(rows, current) == Kept(rows, counters)
  {
    forall i | 0 <= i < |rows| ensures rows[i].id in current <==> rows[i].id in counters {}
    KeptBySameKeys(rows, current, counters);
  }

  lemma NoRows(counters: Counters)
    ensures IsRestriction(map[], counters, [])
  {
  }

  lemma SameIdentities(current: Counters, counters: Counters, rows: seq<Row>, row: Row, priced: Row)
    requires IsRestriction(current, counters, rows + [row]) && row.id == priced.id
    ensures IsRestriction(current, counters, rows + [priced])
  {
    var a, b := rows + [row], rows + [priced];
    assert forall i :: 0 <= i < |a| ==> a[i].id == b[i].id;
  }

  /** The identities and their counters after one more row. */
  lemma RestrictionGrows(rows: seq<Row>, row: Row, counters: Counters, current: Counters)
    requires IsRestriction(current, counters, rows)
    ensures IsRestriction(if row.id in counters then current[row.id := counters[row.id]] else current,
                          counters, rows + [row])
  {
    var next := if row.id in counters then current[row.id := counters[row.id]] else current;
    var all := rows + [row];
    forall id ensures id in next <==> id in counters && exists i :: 0 <= i < |all| && all[i].id == id {
      if id in next && id != row.id {
        var i :| 0 <= i < |rows| && rows[i].id == id;
        assert all[i].id == id;
      }
      if id == row.id { assert all[|rows|].id == id; }
      if i :| 0 <= i < |all| && all[i].id == id && id != row.id { assert rows[i].id == id; }
    }
  }

  /**
   apply_task_cpu_deltas. Each row's share depends on the earlier counter of that very identity alone, so a
   reused pid inherits nothing. It fails exactly when some identity's counter moved backwards.
   */
  method ApplyTaskCpuDeltas(rows: array<Row>, previous: Counters, counters: Counters, elapsed: real)
    returns (kept: Option<seq<Row>>, current: Counters)
    requires elapsed > 0.0
    modifies rows
    ensures kept.None? <==> exists i :: 0 <= i < rows.Length && MovedBack(old(rows[i]), previous, counters)
    ensures kept.Some? ==>
      && (forall i :: 0 <= i < rows.Length ==> rows[i] == Priced(old(rows[i]), previous, counters, elapsed))
      && kept.value == Kept(rows[..], counters)
      && IsRestriction(current, counters, rows[..])
  {
    hide IsRestriction;
    current := map[];
    NoRows(counters);
    for n := 0 to rows.Length
      invariant forall i :: 0 <= i < n ==> !MovedBack(old(rows[i]), previous, counters)
      invariant forall i :: 0 <= i < n ==> rows[i] == Priced(old(rows[i]), previous, counters, elapsed)
      invariant forall i :: n <= i < rows.Length ==> rows[i] == old(rows[i])
      invariant IsRestriction(current, counters, rows[..n])
    {
      var row := rows[n];
      var id := row.id;
      RestrictionGrows(rows[..n], row, counters, current);
      if id in counters {
        var value := counters[id];
        current := current[id := value];
        if id !in previous {
          rows[n] := row.(cpuPct := 0.0);
        } else {
          var delta := value - previous[id];
          if delta < 0 {
            assert MovedBack(old(rows[n]), previous, counters);
            return None, current;
          }
          rows[n] := row.(cpuPct := 100.0 * delta as real / (elapsed * NANOS_PER_SECOND));
        }
      }
      assert rows[..n + 1] == rows[..n] + [rows[n]];
      SameIdentities(current, counters, rows[..n], row, rows[n]);
    }
    assert rows[..rows.Length] == rows[..];
    KeptByRestriction(rows[..], current, counters);
    kept := Some(Kept(rows[..], current));
  }

  /** The counters collect_task_cpu_sample passes on: each row's own CPU time, the last row of an identity counting. */
  function OwnCounters(rows: seq<Row>): Counters {
    if rows == [] then map[] else OwnCounters(rows[..|rows| - 1])[rows[|rows| - 1].id := rows[|rows| - 1].cpuNanos]
  }

  lemma {:induction false} OwnCountersCover(rows: seq<Row>)
    ensures forall id :: id in OwnCounters(rows) <==> exists i :: 0 <= i < |rows| && rows[i].id == id
  {
    if rows == [] {
    } else {
      var front := rows[..|rows| - 1];
      OwnCountersCover(front);
      forall id ensures id in OwnCounters(rows) <==> exists i :: 0 <= i < |rows| && rows[i].id == id {
        if id in OwnCounters(front) {
          var i :| 0 <= i < |front| && front[i].id == id;
          assert rows[i].id == id;
        }
        if i :| 0 <= i < |rows| && rows[i].id == id {
          if i < |front| { assert front[i].id == id; }
        }
      }
    }
  }

  /** An identity's counter is the CPU time of its last row. */
  lemma {:induction false} LastRowCounts(rows: seq<Row>, i: nat)
    requires i < |rows| && forall j :: i < j < |rows| ==> rows[j].id != rows[i].id
    ensures rows[i].id in OwnCounters(rows) && OwnCounters(rows)[rows[i].id] == rows[i].cpuNanos
  {
    var last := |rows| - 1;
    if i == last {
    } else {
      LastRowCounts(rows[..last], i);
    }
  }

  lemma {:induction false} AllKept(rows: seq<Row>, counters: Counters)
    requires forall i :: 0 <= i < |rows| ==> rows[i].id in counters
    ensures Kept(rows, counters) == rows
  {
    if rows == [] {
    } else {
      AllKept(rows[..|rows| - 1], counters);
    }
  }

  lemma {:induction false} CollectsAll(before: seq<Row>, after: seq<Row>, counters: Counters, current: Counters)
    requires |before| == |after| && forall i :: 0 <= i < |after| ==> after[i].id == before[i].id
    requires counters == OwnCounters(before) && IsRestriction(current, counters, after)
    ensures Kept(after, counters) == after && current == counters
  {
    OwnCountersCover(before);
    forall i | 0 <= i < |after| ensures after[i].id in counters { assert before[i].id in counters; }
    AllKept(after, counters);
    forall id | id in counters ensures id in current {
      var i :| 0 <= i < |before| && before[i].id == id;
      assert after[i].id == id;
    }
  }

  /** A row's own counter is below what the previous snapshot had for its identity. */
  ghost predicate RunsBack(before: seq<Row>, after: seq<Row>) {
    exists i :: 0 <= i < |after| && MovedBack(after[i], OwnCounters(before), OwnCounters(after))
  }

  /** Every row of the new snapshot, priced against the snapshot before it. */
  ghost predicate PricedSample(before: seq<Row>, after: seq<Row>, kept: seq<Row>, elapsed: real) {
    && elapsed > 0.0 && |kept| == |after|
    && forall i :: 0 <= i < |after| ==>
         kept[i] == Priced(after[i], OwnCounters(before), OwnCounters(after), elapsed)
  }

  /** collect_task_cpu_sample: no row is lost, and the next sample is compared with exactly these counters. */
  method CollectTaskCpuSample(parsed: seq<Row>, previous: Counters, elapsed: real, ghost before: seq<Row>)
    returns (kept: Option<seq<Row>>, current: Counters)
    requires elapsed > 0.0 && previous == OwnCounters(before)
    ensures kept.None? <==> RunsBack(before, parsed)
    ensures kept.Some? ==> current == OwnCounters(parsed) && PricedSample(before, parsed, kept.value, elapsed)
  {
    var rows := new Row[|parsed|](i requires 0 <= i < |parsed| => parsed[i]);
    assert rows[..] == parsed;
    var counters := OwnCounters(rows[..]);
    hide OwnCounters, Kept, IsRestriction;
    kept, current := ApplyTaskCpuDeltas(rows, previous, counters, elapsed);
    if kept.Some? { CollectsAll(parsed, rows[..], counters, current); }
  }

  // ---- The sampling loop

  /** What one turn of the loop reads: the time since the last one, the process rows and the host's ticks. */
  datatype Snapshot = Snapshot(elapsed: real, rows: seq<Row>, ticks: Ticks)

  /** What one window reads: the ticks at its start, and its turns. */
  datatype Feed = Feed(start: Ticks, snapshots: seq<Snapshot>)

  /** What a window hands on: its samples and their idle percentages. */
  datatype Bucket = Bucket(samples: seq<seq<Row>>, idles: seq<real>)

  function TicksBefore(feed: Feed, k: nat): Ticks
    requires k <= |feed.snapshots|
  {
    if k == 0 then feed.start else feed.snapshots[k - 1].ticks
  }

  /** The rows of the turn before, which for the first turn is the last one of the window before. */
  function RowsBefore(before: seq<Row>, feed: Feed, k: nat): seq<Row>
    requires k <= |feed.snapshots|
  {
    if k == 0 then before else feed.snapshots[k - 1].rows
  }

  /** The k-th turn cannot be taken: the clock or the ticks stood still, or a counter moved backwards. */
  ghost predicate Unpriceable(before: seq<Row>, feed: Feed, k: nat)
    requires k < |feed.snapshots|
  {
    var turn := feed.snapshots[k];
    turn.elapsed <= 0.0 || RunsBack(RowsBefore(before, feed, k), turn.rows)
    || TickTotal(TicksBefore(feed, k), turn.ticks) == 0
  }

  /** Some identity has a lower counter than before. */
  ghost predicate CounterFell(earlier: Counters, later: Counters) {
    exists id :: id in earlier && id in later && later[id] < earlier[id]
  }

  lemma SomeMovedBack(rows: seq<Row>, earlier: Counters, later: Counters)
    requires forall id :: id in later <==> exists i :: 0 <= i < |rows| && rows[i].id == id
    ensures (exists i :: 0 <= i < |rows| && MovedBack(rows[i], earlier, later)) <==> CounterFell(earlier, later)
  {
    if id :| id in earlier && id in later && later[id] < earlier[id] {
      var i :| 0 <= i < |rows| && rows[i].id == id;
      assert MovedBack(rows[i], earlier, later);
    }
    if i :| 0 <= i < |rows| && MovedBack(rows[i], earlier, later) {
      var id := rows[i].id;
      assert id in earlier && id in later && later[id] < earlier[id];
    }
  }

  lemma {:induction false} RunsBackMeans(before: seq<Row>, after: seq<Row>)
    ensures RunsBack(before, after) <==> CounterFell(OwnCounters(before), OwnCounters(after))
  {
    hide MovedBack, CounterFell;
    OwnCountersCover(after);
    SomeMovedBack(after, OwnCounters(before), OwnCounters(after));
  }

  /** What stops a turn: time that did not pass, a counter lower than before, or a host that counted no tick. */
  lemma UnpriceableMeans(before: seq<Row>, feed: Feed, k: nat)
    requires k < |feed.snapshots|
    ensures var turn := feed.snapshots[k];
      var last := if k == 0 then feed.start else feed.snapshots[k - 1].ticks;
      var rows := if k == 0 then before else feed.snapshots[k - 1].rows;
      Unpriceable(before, feed, k) <==>
        || turn.elapsed <= 0.0
        || CounterFell(OwnCounters(rows), OwnCounters(turn.rows))
        || (&& (turn.ticks.user - last.user) % 0x1_0000_0000 == 0
            && (turn.ticks.system - last.system) % 0x1_0000_0000 == 0
            && (turn.ticks.idle - last.idle) % 0x1_0000_0000 == 0
            && (turn.ticks.nice - last.nice) % 0x1_0000_0000 == 0)
  {
    var turn := feed.snapshots[k];
    RunsBackMeans(RowsBefore(before, feed, k), turn.rows);
    hide RunsBack, TickTotal, OwnCounters;
    assert CpuIdlePercent(TicksBefore(feed, k), turn.ticks).None? <==>
           TickTotal(TicksBefore(feed, k), turn.ticks) == 0;
  }

  ghost predicate Stalls(before: seq<Row>, feed: Feed) {
    exists k :: 0 <= k < |feed.snapshots| && Unpriceable(before, feed, k)
  }

  /** The k-th sample is priced against the turn before it, and its idle percentage is that of the ticks since then. */
  ghost predicate Sampled(before: seq<Row>, feed: Feed, k: nat, sample: seq<Row>, idle: real)
    requires k < |feed.snapshots|
  {
    var turn := feed.snapshots[k];
    && PricedSample(RowsBefore(before, feed, k), turn.rows, sample, turn.elapsed)
    && CpuIdlePercent(TicksBefore(feed, k), turn.ticks) == Some(idle)
  }

  ghost predicate PricedWindow(before: seq<Row>, feed: Feed, bucket: Bucket) {
    && |bucket.samples| == |bucket.idles| == |feed.snapshots|
    && forall k :: 0 <= k < |feed.snapshots| ==> Sampled(before, feed, k, bucket.samples[k], bucket.idles[k])
  }

  /** Each idle percentage of a window is that of the true ticks since the turn before, or since its start. */
  lemma IdleOfTurn(
    before: seq<Row>, feed: Feed, bucket: Bucket, k: nat, t: Ticks, user: nat, system: nat, idle: nat, nice: nat)
    requires PricedWindow(before, feed, bucket) && k < |feed.snapshots|
    requires user < 0x1_0000_0000 && system < 0x1_0000_0000 && idle < 0x1_0000_0000 && nice < 0x1_0000_0000
    requires (if k == 0 then feed.start else feed.snapshots[k - 1].ticks) ==
      Ticks(t.user % 0x1_0000_0000, t.system % 0x1_0000_0000, t.idle % 0x1_0000_0000, t.nice % 0x1_0000_0000)
    requires feed.snapshots[k].ticks ==
      Ticks((t.user + user) % 0x1_0000_0000, (t.system + system) % 0x1_0000_0000,
            (t.idle + idle) % 0x1_0000_0000, (t.nice + nice) % 0x1_0000_0000)
    ensures user + system + idle + nice > 0
    ensures bucket.idles[k] == 100.0 * idle as real / (user + system + idle + nice) as real
  {
    hide CpuIdlePercent, PricedSample;
    IdleAcrossWrap(t, user, system, idle, nice);
    assert Sampled(before, feed, k, bucket.samples[k], bucket.idles[k]);
  }

  /** One turn of the inner loop. */
  method CollectSnapshot(before: Ticks, turn: Snapshot, previous: Counters, ghost rows: seq<Row>)
    returns (kept: seq<Row>, idle: Option<real>, current: Counters)
    requires previous == OwnCounters(rows)
    ensures idle.None? <==> turn.elapsed <= 0.0 || RunsBack(rows, turn.rows) || TickTotal(before, turn.ticks) == 0
    ensures idle.Some? ==> PricedSample(rows, turn.rows, kept, turn.elapsed) && current == OwnCounters(turn.rows)
    ensures idle.Some? ==> CpuIdlePercent(before, turn.ticks) == idle
  {
    hide OwnCounters, RunsBack, PricedSample;
    if turn.elapsed <= 0.0 { return [], None, previous; }
    var sample;
    sample, current := CollectTaskCpuSample(turn.rows, previous, turn.elapsed, rows);
    if sample.None? { return [], None, current; }
    kept, idle := sample.value, CpuIdlePercent(before, turn.ticks);
  }

  /** The inner loop of main, over one window. */
  method CollectWindow(before: seq<Row>, feed: Feed, previous: Counters)
    returns (bucket: Option<Bucket>, current: Counters)
    requires previous == OwnCounters(before)
    ensures bucket.None? <==> Stalls(before, feed)
    ensures bucket.Some? ==> PricedWindow(before, feed, bucket.value)
    ensures bucket.Some? ==> current == OwnCounters(RowsBefore(before, feed, |feed.snapshots|))
  {
    hide OwnCounters, RunsBack, PricedSample, TickTotal, CpuIdlePercent;
    current := previous;
    var samples: seq<seq<Row>>, idles: seq<real> := [], [];
    var previousTicks := feed.start;
    for n := 0 to |feed.snapshots|
      invariant current == OwnCounters(RowsBefore(before, feed, n)) && previousTicks == TicksBefore(feed, n)
      invariant |samples| == |idles| == n
      invariant forall k :: 0 <= k < n ==> !Unpriceable(before, feed, k)
      invariant forall k :: 0 <= k < n ==> Sampled(before, feed, k, samples[k], idles[k])
    {
      var turn := feed.snapshots[n];
      var kept, idle;
      kept, idle, current := CollectSnapshot(previousTicks, turn, current, RowsBefore(before, feed, n));
      if idle.None? {
        assert Unpriceable(before, feed, n);
        return None, current;
      }
      samples, idles, previousTicks := samples + [kept], idles + [idle.value], turn.ticks;
    }
    bucket := Some(Bucket(samples, idles));
  }

  /** The rows of the last turn before the w-th window. */
  function RowsUpTo(baseline: seq<Row>, feeds: seq<Feed>, w: nat): seq<Row>
    requires w <= |feeds|
  {
    if w == 0 then baseline
    else
      var feed := feeds[w - 1];
      RowsBefore(RowsUpTo(baseline, feeds, w - 1), feed, |feed.snapshots|)
  }

  /** Every window is priced, and the counters go on from one to the next. */
  ghost predicate PricedWindows(baseline: seq<Row>, feeds: seq<Feed>, buckets: seq<Bucket>) {
    && |buckets| == |feeds|
    && forall w :: 0 <= w < |feeds| ==> PricedWindow(RowsUpTo(baseline, feeds, w), feeds[w], buckets[w])
  }

  /** The sampling of main, over all its windows. It ends without a result when one of their turns cannot be taken. */
  method CollectRun(baseline: seq<Row>, feeds: seq<Feed>) returns (buckets: Option<seq<Bucket>>)
    ensures buckets.None? <==> exists w :: 0 <= w < |feeds| && Stalls(RowsUpTo(baseline, feeds, w), feeds[w])
    ensures buckets.Some? ==> PricedWindows(baseline, feeds, buckets.value)
  {
    hide OwnCounters, Stalls, PricedWindow, RowsBefore;
    var previous := OwnCounters(baseline);
    var rows := baseline;
    var done: seq<Bucket> := [];
    for w := 0 to |feeds|
      invariant rows == RowsUpTo(baseline, feeds, w) && previous == OwnCounters(rows) && |done| == w
      invariant forall v :: 0 <= v < w ==> !Stalls(RowsUpTo(baseline, feeds, v), feeds[v])
      invariant forall v :: 0 <= v < w ==> PricedWindow(RowsUpTo(baseline, feeds, v), feeds[v], done[v])
    {
      var bucket;
      bucket, previous := CollectWindow(rows, feeds[w], previous);
      if bucket.None? { return None; }
      rows, done := RowsBefore(rows, feeds[w], |feeds[w].snapshots|), done + [bucket.value];
    }
    buckets := Some(done);
  }

  // ---- All windows as one run

  /** The samples of a run, each priced against the one before it, the first against the baseline all[0]. */
  ghost predicate PricedRun(all: seq<seq<Row>>, kept: seq<seq<Row>>, elapsed: seq<real>) {
    && |all| == |kept| + 1 && |elapsed| == |kept|
    && forall k :: 0 <= k < |kept| ==> PricedSample(all[k], all[k + 1], kept[k], elapsed[k])
  }

  function RowsOfTurns(snapshots: seq<Snapshot>): (r: seq<seq<Row>>)
    ensures |r| == |snapshots|
  {
    seq<seq<Row>>(|snapshots|, k requires 0 <= k < |snapshots| => snapshots[k].rows)
  }

  function TimesOfTurns(snapshots: seq<Snapshot>): (r: seq<real>)
    ensures |r| == |snapshots|
  {
    seq<real>(|snapshots|, k requires 0 <= k < |snapshots| => snapshots[k].elapsed)
  }

  /** The rows read, the times between them and the rows reported, window after window. */
  function AllRead(baseline: seq<Row>, feeds: seq<Feed>): (r: seq<seq<Row>>)
    ensures r != []
  {
    if feeds == [] then [baseline]
    else AllRead(baseline, feeds[..|feeds| - 1]) + RowsOfTurns(feeds[|feeds| - 1].snapshots)
  }

  function AllTimes(feeds: seq<Feed>): seq<real> {
    if feeds == [] then [] else AllTimes(feeds[..|feeds| - 1]) + TimesOfTurns(feeds[|feeds| - 1].snapshots)
  }

  function AllKeptRows(buckets: seq<Bucket>): seq<seq<Row>> {
    if buckets == [] then [] else AllKeptRows(buckets[..|buckets| - 1]) + buckets[|buckets| - 1].samples
  }

  lemma {:induction false} RowsUpToPrefix(baseline: seq<Row>, feeds: seq<Feed>, n: nat, w: nat)
    requires w <= n <= |feeds|
    ensures RowsUpTo(baseline, feeds[..n], w) == RowsUpTo(baseline, feeds, w)
    decreases w
  {
    if w == 0 {
    } else {
      RowsUpToPrefix(baseline, feeds, n, w - 1);
    }
  }

  /** One more window continues a run. */
  lemma RunContinues(
    all: seq<seq<Row>>, kept: seq<seq<Row>>, elapsed: seq<real>, before: seq<Row>, feed: Feed, bucket: Bucket)
    requires PricedRun(all, kept, elapsed) && all[|all| - 1] == before && PricedWindow(before, feed, bucket)
    ensures PricedRun(all + RowsOfTurns(feed.snapshots), kept + bucket.samples, elapsed + TimesOfTurns(feed.snapshots))
    ensures var longer := all + RowsOfTurns(feed.snapshots);
      longer[|longer| - 1] == RowsBefore(before, feed, |feed.snapshots|)
  {
    hide PricedSample;
    var all', kept' := all + RowsOfTurns(feed.snapshots), kept + bucket.samples;
    var elapsed' := elapsed + TimesOfTurns(feed.snapshots);
    forall k | 0 <= k < |kept'| ensures PricedSample(all'[k], all'[k + 1], kept'[k], elapsed'[k]) {
      if k >= |kept| { assert Sampled(before, feed, k - |kept|, bucket.samples[k - |kept|], bucket.idles[k - |kept|]); }
    }
  }

  lemma {:induction false} PricedPrefix(baseline: seq<Row>, feeds: seq<Feed>, buckets: seq<Bucket>, n: nat)
    requires PricedWindows(baseline, feeds, buckets) && n < |feeds|
    ensures PricedWindows(baseline, feeds[..n], buckets[..n])
    ensures PricedWindow(RowsUpTo(baseline, feeds[..n], n), feeds[n], buckets[n])
    ensures RowsUpTo(baseline, feeds[..n], n) == RowsUpTo(baseline, feeds, n)
  {
    hide PricedWindow, RowsUpTo;
    forall w | 0 <= w <= n
      ensures PricedWindow(RowsUpTo(baseline, feeds[..n], w), feeds[w], buckets[w])
      ensures RowsUpTo(baseline, feeds[..n], w) == RowsUpTo(baseline, feeds, w)
    {
      RowsUpToPrefix(baseline, feeds, n, w);
    }
  }

  lemma LengthsAgree(baseline: seq<Row>, feeds: seq<Feed>, buckets: seq<Bucket>)
    requires PricedWindows(baseline, feeds, buckets)
    ensures |buckets| == |feeds|
  {
  }

  lemma EmptyRun(baseline: seq<Row>)
    ensures PricedRun([baseline], [], [])
  {
  }

  /** What CollectRun returns is one run of samples, whatever windows they were taken in. */
  lemma {:induction false} WindowsMakeRun(baseline: seq<Row>, feeds: seq<Feed>, buckets: seq<Bucket>)
    requires PricedWindows(baseline, feeds, buckets)
    ensures PricedRun(AllRead(baseline, feeds), AllKeptRows(buckets), AllTimes(feeds))
    ensures var all := AllRead(baseline, feeds); all[|all| - 1] == RowsUpTo(baseline, feeds, |feeds|)
    decreases |feeds|
  {
    hide PricedWindows, PricedWindow, PricedRun;
    LengthsAgree(baseline, feeds, buckets);
    if feeds == [] {
      EmptyRun(baseline);
    } else {
      var n := |feeds| - 1;
      PricedPrefix(baseline, feeds, buckets, n);
      WindowsMakeRun(baseline, feeds[..n], buckets[..n]);
      RunContinues(AllRead(baseline, feeds[..n]), AllKeptRows(buckets[..n]), AllTimes(feeds[..n]),
                   RowsUpTo(baseline, feeds, n), feeds[n], buckets[n]);
    }
  }

  // ---- What the reported shares stand for

  /** The share that a sample reports for an identity. */
  function ShareOf(kept: seq<Row>, id: Identity): real {
    if kept == [] then 0.0
    else if kept[|kept| - 1].id == id then kept[|kept| - 1].cpuPct
    else ShareOf(kept[..|kept| - 1], id)
  }

  /** All rows of an identity show the same share. */
  lemma {:induction false} ShareIsPercent(
    before: seq<Row>, after: seq<Row>, kept: seq<Row>, elapsed: real, id: Identity, n: nat)
    requires PricedSample(before, after, kept, elapsed) && n <= |kept|
    requires id in OwnCounters(after)
    ensures ShareOf(kept[..n], id) ==
      if exists i :: 0 <= i < n && after[i].id == id
      then Percent(Get(OwnCounters(before), id), OwnCounters(after)[id], elapsed)
      else 0.0
  {
    hide OwnCounters;
    if n == 0 {
    } else {
      assert kept[..n][..n - 1] == kept[..n - 1];
      ShareIsPercent(before, after, kept, elapsed, id, n - 1);
      assert kept[n - 1] == Priced(after[n - 1], OwnCounters(before), OwnCounters(after), elapsed);
    }
  }

  lemma {:induction false} NotReported(kept: seq<Row>, id: Identity)
    requires forall i :: 0 <= i < |kept| ==> kept[i].id != id
    ensures ShareOf(kept, id) == 0.0
  {
    if kept == [] {
    } else {
      NotReported(kept[..|kept| - 1], id);
    }
  }

  /** What an identity's counter gained between two snapshots that both contain it. */
  function Gain(before: seq<Row>, after: seq<Row>, id: Identity): int {
    if id in OwnCounters(before) && id in OwnCounters(after) then OwnCounters(after)[id] - OwnCounters(before)[id]
    else 0
  }

  lemma ShareOfSpan(delta: real, span: real)
    requires span > 0.0
    ensures 100.0 * delta / span / 100.0 * span == delta
  {
    var q := 100.0 * delta / span;
    assert q * span == 100.0 * delta;
    assert q / 100.0 * span == q * span / 100.0;
  }

  /** A sample reports what the identity gained since the last one, and nothing when it is new or absent. */
  lemma {:induction false} ShareOfSample(before: seq<Row>, after: seq<Row>, kept: seq<Row>, elapsed: real, id: Identity)
    requires PricedSample(before, after, kept, elapsed)
    ensures ShareOf(kept, id) / 100.0 * (elapsed * 1000000000.0) == Gain(before, after, id) as real
  {
    hide OwnCounters, ShareOf;
    OwnCountersCover(after);
    if id in OwnCounters(after) {
      ShareIsPercent(before, after, kept, elapsed, id, |kept|);
      assert kept[..|kept|] == kept;
    } else {
      NotReported(kept, id);
    }
    ShareOfSpan(Gain(before, after, id) as real, elapsed * NANOS_PER_SECOND);
  }

  /** A core that was busy all the time is reported as one hundred percent. */
  lemma {:induction false} BusyCoreIsHundred(
    before: seq<Row>, after: seq<Row>, kept: seq<Row>, elapsed: real, id: Identity)
    requires PricedSample(before, after, kept, elapsed)
    requires Gain(before, after, id) as real == elapsed * 1000000000.0
    ensures ShareOf(kept, id) == 100.0
  {
    hide ShareOf, Gain;
    ShareOfSample(before, after, kept, elapsed, id);
    var part, nanos := ShareOf(kept, id) / 100.0, elapsed * 1000000000.0;
    assert (part - 1.0) * nanos == 0.0;
  }

  /** CPU nanoseconds that the reported shares of samples i+1..j stand for. */
  function Reported(kept: seq<seq<Row>>, elapsed: seq<real>, id: Identity, i: nat, j: nat): real
    requires i <= j <= |kept| == |elapsed|
    decreases j
  {
    if i == j then 0.0
    else Reported(kept, elapsed, id, i, j - 1)
         + ShareOf(kept[j - 1], id) / 100.0 * (elapsed[j - 1] * NANOS_PER_SECOND)
  }

  ghost predicate PresentIn(all: seq<seq<Row>>, id: Identity, i: nat, j: nat) {
    forall k :: i <= k <= j && k < |all| ==> id in OwnCounters(all[k])
  }

  /** Over any stretch of samples that all contain an identity, its shares add up to exactly what its counter gained. */
  lemma {:induction false} SharesTelescope(
    all: seq<seq<Row>>, kept: seq<seq<Row>>, elapsed: seq<real>, id: Identity, i: nat, j: nat)
    requires PricedRun(all, kept, elapsed) && i <= j < |all| && PresentIn(all, id, i, j)
    ensures Reported(kept, elapsed, id, i, j) == (OwnCounters(all[j])[id] - OwnCounters(all[i])[id]) as real
    decreases j
  {
    hide OwnCounters, ShareOf, PricedSample;
    if i == j {
    } else {
      SharesTelescope(all, kept, elapsed, id, i, j - 1);
      assert PricedSample(all[j - 1], all[j], kept[j - 1], elapsed[j - 1]);
      ShareOfSample(all[j - 1], all[j], kept[j - 1], elapsed[j - 1], id);
    }
  }

  lemma {:induction false} ReportedFrom(kept: seq<seq<Row>>, elapsed: seq<real>, id: Identity, i: nat, j: nat)
    requires i < j <= |kept| == |elapsed|
    ensures Reported(kept, elapsed, id, i, j)
         == Reported(kept, elapsed, id, i, i + 1) + Reported(kept, elapsed, id, i + 1, j)
    decreases j
  {
    if i + 1 == j {
    } else {
      ReportedFrom(kept, elapsed, id, i, j - 1);
    }
  }

  /** An identity first seen in snapshot i, even under a reused pid, is charged only what it used after that. */
  lemma ChargedFromFirstSample(
    all: seq<seq<Row>>, kept: seq<seq<Row>>, elapsed: seq<real>, id: Identity, i: nat, j: nat)
    requires PricedRun(all, kept, elapsed) && 0 < i <= j < |all| && PresentIn(all, id, i, j)
    requires id !in OwnCounters(all[i - 1])
    ensures Reported(kept, elapsed, id, i - 1, j) == (OwnCounters(all[j])[id] - OwnCounters(all[i])[id]) as real
  {
    hide OwnCounters, ShareOf, PricedSample;
    assert PricedSample(all[i - 1], all[i], kept[i - 1], elapsed[i - 1]);
    ShareOfSample(all[i - 1], all[i], kept[i - 1], elapsed[i - 1], id);
    assert Reported(kept, elapsed, id, i - 1, i - 1) == 0.0;
    ReportedFrom(kept, elapsed, id, i - 1, j);
    SharesTelescope(all, kept, elapsed, id, i, j);
  }
}
