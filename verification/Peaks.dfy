/** Peak-run detection and merging of scripts/analyze-latency-marker-peaks.py, over the reals. */
module Peaks {
  import opened Sequences

  // ---- Runs at or above the threshold

  predicate Hot(env: seq<real>, threshold: real, i: int) {
    0 <= i < |env| && env[i] >= threshold
  }

  /** A maximal run at or above the threshold. */
  ghost predicate IsRun(env: seq<real>, threshold: real, s: int, e: int) {
    && 0 <= s < e <= |env|
    && (forall i :: s <= i < e ==> Hot(env, threshold, i))
    && !Hot(env, threshold, s - 1) && !Hot(env, threshold, e)
  }

  /** p is the first of the largest values in s..e. */
  ghost predicate IsFirstMaximum(env: seq<real>, s: int, e: int, p: int) {
    && 0 <= s <= p < e <= |env|
    && (forall i :: s <= i < e ==> env[i] <= env[p])
    && (forall i :: s <= i < p ==> env[i] < env[p])
  }

  /** argmax over a slice. */
  function FirstMaximum(env: seq<real>, s: nat, e: nat): (p: nat)
    requires s < e <= |env|
    ensures IsFirstMaximum(env, s, e, p)
    decreases e
  {
    if e == s + 1 then s
    else
      var p := FirstMaximum(env, s, e - 1);
      if env[e - 1] > env[p] then e - 1 else p
  }

  /** Where the run through i ends. */
  function RunEnd(env: seq<real>, threshold: real, i: nat): (e: nat)
    requires i <= |env|
    ensures i <= e <= |env| && !Hot(env, threshold, e)
    ensures forall k :: i <= k < e ==> Hot(env, threshold, k)
    decreases |env| - i
  {
    if Hot(env, threshold, i) then RunEnd(env, threshold, i + 1) else i
  }

  /** The peak of each run from i on. */
  function RunPeaks(env: seq<real>, threshold: real, i: nat): seq<nat>
    decreases |env| - i
  {
    if i >= |env| then []
    else if Hot(env, threshold, i) then
      var e := RunEnd(env, threshold, i);
      [FirstMaximum(env, i, e)] + RunPeaks(env, threshold, e)
    else RunPeaks(env, threshold, i + 1)
  }

  ghost predicate Ascending(s: seq<nat>) {
    forall j, k :: 0 <= j < k < |s| ==> s[j] < s[k]
  }

  /** The peak of some run that starts at i or later. */
  ghost predicate PeakOfRun(env: seq<real>, threshold: real, i: int, p: int) {
    exists s, e :: i <= s && IsRun(env, threshold, s, e) && IsFirstMaximum(env, s, e, p)
  }

  lemma RunsAreDisjoint(env: seq<real>, threshold: real, s: int, e: int, s': int, e': int)
    requires IsRun(env, threshold, s, e) && IsRun(env, threshold, s', e') && s <= s'
    ensures (s', e') == (s, e) || e < s'
  {
  }

  /** From a position where no run is under way: exactly one peak per run, at its first maximum, in order. */
  lemma {:induction false} OnePeakPerRun(env: seq<real>, threshold: real, i: nat)
    requires !Hot(env, threshold, i - 1)
    ensures Ascending(RunPeaks(env, threshold, i))
    ensures forall p :: p in RunPeaks(env, threshold, i) <==> PeakOfRun(env, threshold, i, p)
    ensures forall p :: p in RunPeaks(env, threshold, i) ==> i <= p < |env|
    decreases |env| - i
  {
    var peaks := RunPeaks(env, threshold, i);
    if i >= |env| {
    } else if Hot(env, threshold, i) {
      var e := RunEnd(env, threshold, i);
      assert IsRun(env, threshold, i, e);
      if e < |env| {
        assert RunPeaks(env, threshold, e) == RunPeaks(env, threshold, e + 1);
        OnePeakPerRun(env, threshold, e + 1);
      }
      var tail := peaks[1..];
      forall j, k | 0 <= j < k < |peaks| ensures peaks[j] < peaks[k] {
        assert peaks[k] == tail[k - 1] && tail[k - 1] in tail;
        if j > 0 { assert peaks[j] == tail[j - 1]; }
      }
      forall p ensures p in peaks <==> PeakOfRun(env, threshold, i, p) {
        if s, f :| i <= s && IsRun(env, threshold, s, f) && IsFirstMaximum(env, s, f, p) {
          RunsAreDisjoint(env, threshold, i, e, s, f);
          if s == i {
            assert p == FirstMaximum(env, i, e);
          } else {
            assert s >= e + 1;
            assert PeakOfRun(env, threshold, e + 1, p);
          }
        }
        if p in peaks && p != peaks[0] {
          assert PeakOfRun(env, threshold, e + 1, p);
          var s, f :| e + 1 <= s && IsRun(env, threshold, s, f) && IsFirstMaximum(env, s, f, p);
        }
      }
    } else {
      OnePeakPerRun(env, threshold, i + 1);
      forall p ensures p in peaks <==> PeakOfRun(env, threshold, i, p) {
        if s, f :| i <= s && IsRun(env, threshold, s, f) && IsFirstMaximum(env, s, f, p) {
          assert s != i;
          assert PeakOfRun(env, threshold, i + 1, p);
        }
        if PeakOfRun(env, threshold, i + 1, p) {
          var s, f :| i + 1 <= s && IsRun(env, threshold, s, f) && IsFirstMaximum(env, s, f, p);
        }
      }
    }
  }

  /** The scan of detect_peaks. After a run it also skips the sample that ended it. */
  method FindPeaks(env: seq<real>, threshold: real) returns (peaks: seq<nat>)
    ensures peaks == RunPeaks(env, threshold, 0)
  {
    peaks := [];
    var index := 0;
    while index < |env|
      invariant peaks + RunPeaks(env, threshold, index) == RunPeaks(env, threshold, 0)
      decreases |env| - index
    {
      if env[index] >= threshold {
        var end := index;
        while end < |env| && env[end] >= threshold
          invariant index <= end <= |env| && RunEnd(env, threshold, end) == RunEnd(env, threshold, index)
        {
          end := end + 1;
        }
        var p := FirstMaximum(env, index, end);
        assert RunPeaks(env, threshold, index) == [p] + RunPeaks(env, threshold, end + 1);
        assert peaks + RunPeaks(env, threshold, index) == (peaks + [p]) + RunPeaks(env, threshold, end + 1);
        peaks := peaks + [p];
        index := end + 1;
      } else {
        index := index + 1;
      }
    }
    assert RunPeaks(env, threshold, index) == [];
  }

  // ---- Merging

  datatype Peak = Peak(seconds: real, rms: real)

  function Last(group: seq<Peak>): Peak
    requires group != []
  {
    group[|group| - 1]
  }

  /** group[k] is the loudest and the first to be so. */
  ghost predicate LoudestAt(group: seq<Peak>, k: int) {
    && 0 <= k < |group|
    && (forall j :: 0 <= j < |group| ==> group[j].rms <= group[k].rms)
    && (forall j :: 0 <= j < k ==> group[j].rms < group[k].rms)
  }

  ghost predicate IsLoudest(group: seq<Peak>, p: Peak) {
    exists k :: LoudestAt(group, k) && group[k] == p
  }

  /** The first of the loudest among the first n peaks. */
  function LoudestIndex(group: seq<Peak>, n: nat): (k: nat)
    requires 0 < n <= |group|
    ensures k < n
    ensures forall j :: 0 <= j < n ==> group[j].rms <= group[k].rms && (j < k ==> group[j].rms < group[k].rms)
  {
    if n == 1 then 0
    else
      var k := LoudestIndex(group, n - 1);
      if group[n - 1].rms > group[k].rms then n - 1 else k
  }

  /** max with a key. */
  function Loudest(group: seq<Peak>): (p: Peak)
    requires group != []
    ensures IsLoudest(group, p)
  {
    assert LoudestAt(group, LoudestIndex(group, |group|));
    group[LoudestIndex(group, |group|)]
  }

  /** The groups that merging forms, with one group under way. */
  function Chains(group: seq<Peak>, rest: seq<Peak>, gap: real): seq<seq<Peak>>
    requires group != []
    decreases |rest|
  {
    if rest == [] then [group]
    else if rest[0].seconds - Last(group).seconds <= gap then Chains(group + [rest[0]], rest[1..], gap)
    else [group] + Chains([rest[0]], rest[1..], gap)
  }

  /** The loudest peak of each group. */
  function MergeFrom(group: seq<Peak>, rest: seq<Peak>, gap: real): seq<Peak>
    requires group != []
    decreases |rest|
  {
    if rest == [] then [Loudest(group)]
    else if rest[0].seconds - Last(group).seconds <= gap then MergeFrom(group + [rest[0]], rest[1..], gap)
    else [Loudest(group)] + MergeFrom([rest[0]], rest[1..], gap)
  }

  function Merge(peaks: seq<Peak>, gap: real): seq<Peak> {
    if peaks == [] then [] else MergeFrom([peaks[0]], peaks[1..], gap)
  }

  /** merge_nearby_peaks. */
  method MergeNearbyPeaks(peaks: seq<Peak>, gap: real) returns (merged: seq<Peak>)
    ensures merged == Merge(peaks, gap)
  {
    hide Loudest;
    if peaks == [] { return []; }
    merged := [];
    var group := [peaks[0]];
    for i := 1 to |peaks|
      invariant group != [] && merged + MergeFrom(group, peaks[i..], gap) == Merge(peaks, gap)
    {
      var peak := peaks[i];
      assert peaks[i..][0] == peak && peaks[i..][1..] == peaks[i + 1..];
      if peak.seconds - group[|group| - 1].seconds <= gap {
        group := group + [peak];
      } else {
        var rest := MergeFrom([peak], peaks[i + 1..], gap);
        assert merged + ([Loudest(group)] + rest) == (merged + [Loudest(group)]) + rest;
        merged, group := merged + [Loudest(group)], [peak];
      }
    }
    assert peaks[|peaks|..] == [];
    merged := merged + [Loudest(group)];
  }

  /** Neighbours within a group are at most the gap apart. */
  ghost predicate Linked(group: seq<Peak>, gap: real) {
    forall k :: 0 < k < |group| ==> group[k].seconds - group[k - 1].seconds <= gap
  }

  /** From the last peak of a group to the first of the next is more than the gap. */
  ghost predicate Separated(chains: seq<seq<Peak>>, gap: real) {
    forall k :: 0 < k < |chains| && chains[k - 1] != [] && chains[k] != [] ==>
      chains[k][0].seconds - Last(chains[k - 1]).seconds > gap
  }

  /** The groups partition the peaks in order into exactly the chains that the gap allows. */
  lemma {:induction false} ChainsPartition(group: seq<Peak>, rest: seq<Peak>, gap: real)
    requires group != [] && Linked(group, gap)
    ensures var chains := Chains(group, rest, gap);
      && Flatten(chains) == group + rest
      && (forall k :: 0 <= k < |chains| ==> chains[k] != [] && Linked(chains[k], gap))
      && Separated(chains, gap)
      && chains != [] && chains[0] != [] && chains[0][0] == group[0]
    decreases |rest|
  {
    var chains := Chains(group, rest, gap);
    if rest == [] {
      FlattenFront(group, []);
      assert [group] + [] == [group] && Flatten<Peak>([]) == [];
    } else if rest[0].seconds - Last(group).seconds <= gap {
      ChainsPartition(group + [rest[0]], rest[1..], gap);
      assert group + [rest[0]] + rest[1..] == group + rest;
    } else {
      var more := Chains([rest[0]], rest[1..], gap);
      ChainsPartition([rest[0]], rest[1..], gap);
      assert chains[1..] == more && [rest[0]] + rest[1..] == rest;
      FlattenFront(group, more);
      forall k | 0 < k < |chains| && chains[k - 1] != [] && chains[k] != []
        ensures chains[k][0].seconds - Last(chains[k - 1]).seconds > gap
      {
        assert chains[k] == more[k - 1];
        if k > 1 { assert chains[k - 1] == more[k - 2]; }
      }
    }
  }

  ghost predicate Sorted(peaks: seq<Peak>) {
    forall j, k :: 0 <= j <= k < |peaks| ==> peaks[j].seconds <= peaks[k].seconds
  }

  ghost predicate Apart(peaks: seq<Peak>, gap: real) {
    forall k :: 0 < k < |peaks| ==> peaks[k].seconds - peaks[k - 1].seconds > gap
  }

  ghost predicate NoneEmpty(chains: seq<seq<Peak>>) {
    forall k :: 0 <= k < |chains| ==> chains[k] != []
  }

  ghost predicate LoudestOfEach(merged: seq<Peak>, chains: seq<seq<Peak>>) {
    && |merged| == |chains|
    && forall k :: 0 <= k < |chains| ==> IsLoudest(chains[k], merged[k])
  }

  lemma LoudestPrepended(p: Peak, group: seq<Peak>, merged: seq<Peak>, chains: seq<seq<Peak>>)
    requires LoudestOfEach(merged, chains) && IsLoudest(group, p)
    ensures LoudestOfEach([p] + merged, [group] + chains)
  {
    var ps, cs := [p] + merged, [group] + chains;
    forall k | 0 <= k < |cs| ensures IsLoudest(cs[k], ps[k]) {
      if k > 0 { assert cs[k] == chains[k - 1] && ps[k] == merged[k - 1]; }
    }
  }

  lemma {:induction false} MergeFollowsChains(group: seq<Peak>, rest: seq<Peak>, gap: real)
    requires group != []
    ensures LoudestOfEach(MergeFrom(group, rest, gap), Chains(group, rest, gap))
    decreases |rest|
  {
    if rest != [] {
      if rest[0].seconds - Last(group).seconds <= gap {
        MergeFollowsChains(group + [rest[0]], rest[1..], gap);
      } else {
        var merged, chains := MergeFrom([rest[0]], rest[1..], gap), Chains([rest[0]], rest[1..], gap);
        MergeFollowsChains([rest[0]], rest[1..], gap);
        LoudestPrepended(Loudest(group), group, merged, chains);
      }
    } else {
      assert LoudestOfEach([Loudest(group)], [group]);
    }
  }

  /** Merging cuts the peaks into chains at every gap that is too wide, and keeps the first loudest of each chain. */
  lemma MergeKeepsLoudest(peaks: seq<Peak>, gap: real) returns (chains: seq<seq<Peak>>)
    ensures Flatten(chains) == peaks && Separated(chains, gap) && NoneEmpty(chains)
    ensures forall k :: 0 <= k < |chains| ==> Linked(chains[k], gap)
    ensures LoudestOfEach(Merge(peaks, gap), chains)
  {
    if peaks == [] {
      chains := [];
    } else {
      chains := Chains([peaks[0]], peaks[1..], gap);
      ChainsPartition([peaks[0]], peaks[1..], gap);
      assert [peaks[0]] + peaks[1..] == peaks;
      MergeFollowsChains([peaks[0]], peaks[1..], gap);
    }
  }

  lemma {:induction false} FlattenKeepsOrder(chains: seq<seq<Peak>>, k: nat)
    requires Sorted(Flatten(chains)) && k < |chains|
    ensures Sorted(chains[k])
    decreases |chains|
  {
    var all := Flatten(chains);
    FlattenFront(chains[0], chains[1..]);
    assert [chains[0]] + chains[1..] == chains;
    assert all[..|chains[0]|] == chains[0] && all[|chains[0]|..] == Flatten(chains[1..]);
    if k == 0 {
      forall i, j | 0 <= i <= j < |chains[0]| ensures chains[0][i].seconds <= chains[0][j].seconds {
        assert all[i] == chains[0][i] && all[j] == chains[0][j];
      }
    } else {
      forall i, j | 0 <= i <= j < |Flatten(chains[1..])|
        ensures Flatten(chains[1..])[i].seconds <= Flatten(chains[1..])[j].seconds
      {
        assert all[|chains[0]| + i] == Flatten(chains[1..])[i] && all[|chains[0]| + j] == Flatten(chains[1..])[j];
      }
      FlattenKeepsOrder(chains[1..], k - 1);
    }
  }

  lemma LoudestWithin(group: seq<Peak>, p: Peak)
    requires IsLoudest(group, p) && Sorted(group)
    ensures group != [] && group[0].seconds <= p.seconds <= Last(group).seconds
  {
    var i :| LoudestAt(group, i) && group[i] == p;
  }

  /** Merging peaks in time order leaves peaks more than the gap apart. */
  lemma MergedAreApart(peaks: seq<Peak>, gap: real)
    requires Sorted(peaks)
    ensures Apart(Merge(peaks, gap), gap)
  {
    hide Merge, Sorted, IsLoudest, Linked;
    var chains := MergeKeepsLoudest(peaks, gap);
    var merged := Merge(peaks, gap);
    forall k | 0 < k < |merged| ensures merged[k].seconds - merged[k - 1].seconds > gap {
      FlattenKeepsOrder(chains, k - 1);
      FlattenKeepsOrder(chains, k);
      LoudestWithin(chains[k - 1], merged[k - 1]);
      LoudestWithin(chains[k], merged[k]);
    }
  }

  lemma {:induction false} ApartStaysSingle(first: Peak, rest: seq<Peak>, gap: real)
    requires Apart([first] + rest, gap)
    ensures MergeFrom([first], rest, gap) == [first] + rest
    decreases |rest|
  {
    if rest == [] {
    } else {
      var all := [first] + rest;
      assert all[1].seconds - all[0].seconds > gap;
      assert [rest[0]] + rest[1..] == rest;
      forall k | 0 < k < |rest| ensures rest[k].seconds - rest[k - 1].seconds > gap {
        assert all[k + 1].seconds - all[k].seconds > gap;
      }
      ApartStaysSingle(rest[0], rest[1..], gap);
    }
  }

  /** Peaks more than the gap apart are merged into themselves. */
  lemma ApartIsUnchanged(peaks: seq<Peak>, gap: real)
    requires Apart(peaks, gap)
    ensures Merge(peaks, gap) == peaks
  {
    if peaks != [] {
      assert [peaks[0]] + peaks[1..] == peaks;
      ApartStaysSingle(peaks[0], peaks[1..], gap);
    }
  }

  /** Merging is idempotent on peaks in time order. */
  lemma MergeIsIdempotent(peaks: seq<Peak>, gap: real)
    requires Sorted(peaks)
    ensures Merge(Merge(peaks, gap), gap) == Merge(peaks, gap)
  {
    MergedAreApart(peaks, gap);
    ApartIsUnchanged(Merge(peaks, gap), gap);
  }

  // ---- Both together

  function PeakAt(env: seq<real>, rate: nat, p: nat): (peak: Peak)
    requires p < |env| && rate > 0
    ensures peak.seconds * rate as real == p as real && peak.rms == env[p]
  {
    Peak(p as real / rate as real, env[p])
  }

  lemma QuotientOrder(a: nat, b: nat, d: nat)
    requires a <= b && d > 0
    ensures a as real / d as real <= b as real / d as real
  {
  }

  lemma TimesAscend(env: seq<real>, rate: nat, at: seq<nat>, raw: seq<Peak>)
    requires rate > 0 && Ascending(at) && |raw| == |at|
    requires forall k :: 0 <= k < |at| ==> at[k] < |env| && raw[k] == PeakAt(env, rate, at[k])
    ensures Sorted(raw)
  {
    forall j, k | 0 <= j <= k < |raw| ensures raw[j].seconds <= raw[k].seconds {
      QuotientOrder(at[j], at[k], rate);
    }
  }

  /** s..e is a longest stretch of values not below the threshold, and p the first of the largest in it. */
  ghost predicate TopOfStretch(env: seq<real>, threshold: real, s: int, e: int, p: int) {
    && 0 <= s <= p < e <= |env|
    && (forall i :: s <= i < e ==> threshold <= env[i] <= env[p])
    && (forall i :: s <= i < p ==> env[i] < env[p])
    && (s == 0 || env[s - 1] < threshold)
    && (e == |env| || env[e] < threshold)
  }

  lemma TopsAreRunPeaks(env: seq<real>, threshold: real, p: int)
    ensures PeakOfRun(env, threshold, 0, p) <==> exists s, e :: TopOfStretch(env, threshold, s, e, p)
  {
    if s, e :| 0 <= s && IsRun(env, threshold, s, e) && IsFirstMaximum(env, s, e, p) {
      forall i | s <= i < e ensures threshold <= env[i] <= env[p] { assert Hot(env, threshold, i); }
      assert TopOfStretch(env, threshold, s, e, p);
    }
    if s, e :| TopOfStretch(env, threshold, s, e, p) {
      assert IsRun(env, threshold, s, e) && IsFirstMaximum(env, s, e, p);
    }
  }

  lemma {:induction false} TopsInOrder(env: seq<real>, threshold: real)
    ensures var at := RunPeaks(env, threshold, 0);
      && Ascending(at)
      && (forall p: nat :: p in at <==> exists s, e :: TopOfStretch(env, threshold, s, e, p))
      && forall k :: 0 <= k < |at| ==> at[k] < |env|
  {
    hide RunPeaks, TopOfStretch, PeakOfRun;
    OnePeakPerRun(env, threshold, 0);
    var at := RunPeaks(env, threshold, 0);
    assert forall k :: 0 <= k < |at| ==> at[k] in at;
    forall p: nat ensures p in at <==> exists s, e :: TopOfStretch(env, threshold, s, e, p) {
      TopsAreRunPeaks(env, threshold, p);
    }
  }

  /**
   detect_peaks from the envelope and threshold on: a raw peak for the top of each stretch, at its time in
   seconds and as loud as the envelope there, and the merged ones.
   */
  method DetectPeaks(env: seq<real>, rate: nat, threshold: real, gap: real)
    returns (raw: seq<Peak>, merged: seq<Peak>, ghost at: seq<nat>)
    requires rate > 0
    ensures Ascending(at) && forall p: nat :: p in at <==> exists s, e :: TopOfStretch(env, threshold, s, e, p)
    ensures |raw| == |at| && forall k :: 0 <= k < |at| ==>
      && at[k] < |env| && raw[k].rms == env[at[k]]
      && raw[k].seconds * rate as real == at[k] as real
    ensures Sorted(raw) && merged == Merge(raw, gap) && Apart(merged, gap)
  {
    hide RunPeaks, Merge, TopOfStretch, PeakAt, Ascending, Sorted, Apart;
    var found := FindPeaks(env, threshold);
    at := found;
    TopsInOrder(env, threshold);
    raw := seq<Peak>(|found|, k requires 0 <= k < |found| && found[k] < |env| => PeakAt(env, rate, found[k]));
    TimesAscend(env, rate, at, raw);
    MergedAreApart(raw, gap);
    merged := MergeNearbyPeaks(raw, gap);
  }
}
