/**
 The click hysteresis of tools/capture_matrix_quality_analysis.cpp (click_count) and
 scripts/analyze-loopback-quality.py (robust_click_count).
 */
module Clicks {
  import opened Words

  predicate Hot(deltas: seq<real>, threshold: real, k: int) {
    0 <= k < |deltas| && deltas[k] > threshold
  }

  /** Above the threshold, with neither of the two positions before it above. */
  predicate Onset(deltas: seq<real>, threshold: real, k: int) {
    Hot(deltas, threshold, k) && !Hot(deltas, threshold, k - 1) && !Hot(deltas, threshold, k - 2)
  }

  /** How many of the first n positions are onsets. */
  function Onsets(deltas: seq<real>, threshold: real, n: nat): (count: nat)
    requires n <= |deltas|
    ensures count <= n
  {
    if n == 0 then 0
    else Onsets(deltas, threshold, n - 1) + (if Onset(deltas, threshold, n - 1) then 1 else 0)
  }

  /** A delta above the threshold with neither of the two before it above. */
  ghost predicate Begins(deltas: seq<real>, threshold: real, k: int) {
    && 0 <= k < |deltas| && threshold < deltas[k]
    && (k >= 1 ==> deltas[k - 1] <= threshold)
    && (k >= 2 ==> deltas[k - 2] <= threshold)
  }

  lemma {:induction false} OnsetsCount(deltas: seq<real>, threshold: real, n: nat)
    requires n <= |deltas|
    ensures Onsets(deltas, threshold, n) == |set k | 0 <= k < n && Begins(deltas, threshold, k)|
  {
    if n == 0 {
    } else {
      OnsetsCount(deltas, threshold, n - 1);
      var before := set k | 0 <= k < n - 1 && Begins(deltas, threshold, k);
      assert (set k | 0 <= k < n && Begins(deltas, threshold, k))
          == if Onset(deltas, threshold, n - 1) then before + {n - 1} else before;
    }
  }

  /** The loop of robust_click_count. */
  method RobustClickCount(deltas: seq<real>, threshold: real) returns (clicks: nat)
    ensures clicks == Onsets(deltas, threshold, |deltas|)
                   == |set k | 0 <= k < |deltas| && Begins(deltas, threshold, k)|
  {
    OnsetsCount(deltas, threshold, |deltas|);
    clicks := 0;
    var inClick, quiet := false, 0;
    for k := 0 to |deltas|
      invariant clicks == Onsets(deltas, threshold, k)
      invariant inClick <==> Hot(deltas, threshold, k - 1) || Hot(deltas, threshold, k - 2)
      invariant inClick ==> quiet == if Hot(deltas, threshold, k - 1) then 0 else 1
    {
      if deltas[k] > threshold {
        if !inClick { clicks, inClick := clicks + 1, true; }
        quiet := 0;
      } else if inClick {
        quiet := quiet + 1;
        if quiet >= 2 { inClick := false; }
      }
    }
  }

  /** The loop of click_count, whose counters are 32-bit. */
  method ClickCount(deltas: seq<real>, threshold: real) returns (clicks: nat)
    ensures clicks == Onsets(deltas, threshold, |deltas|) % UINT32
                   == |set k | 0 <= k < |deltas| && Begins(deltas, threshold, k)| % 0x1_0000_0000
  {
    OnsetsCount(deltas, threshold, |deltas|);
    clicks := 0;
    var inClick, quiet := false, 0;
    for k := 0 to |deltas|
      invariant clicks == Onsets(deltas, threshold, k) % UINT32
      invariant inClick <==> Hot(deltas, threshold, k - 1) || Hot(deltas, threshold, k - 2)
      invariant inClick ==> quiet == if Hot(deltas, threshold, k - 1) then 0 else 1
    {
      if deltas[k] > threshold {
        if !inClick { clicks, inClick := (clicks + 1) % UINT32, true; }
        quiet := 0;
      } else if inClick {
        quiet := (quiet + 1) % UINT32;
        if quiet >= 2 { inClick := false; }
      }
    }
  }

  /** A click of b that, after a, is the continuation of a click of a. */
  predicate Joins(a: seq<real>, b: seq<real>, threshold: real) {
    || (Hot(b, threshold, 0) && (Hot(a, threshold, |a| - 1) || Hot(a, threshold, |a| - 2)))
    || (!Hot(b, threshold, 0) && Hot(b, threshold, 1) && Hot(a, threshold, |a| - 1))
  }

  lemma {:induction false} PrefixOnsets(a: seq<real>, b: seq<real>, threshold: real, n: nat)
    requires n <= |a|
    ensures Onsets(a + b, threshold, n) == Onsets(a, threshold, n)
  {
    if n == 0 {
    } else {
      PrefixOnsets(a, b, threshold, n - 1);
    }
  }

  lemma {:induction false} SuffixOnsets(a: seq<real>, b: seq<real>, threshold: real, n: nat)
    requires n <= |b|
    ensures Onsets(a + b, threshold, |a| + n) ==
            Onsets(a, threshold, |a|) + Onsets(b, threshold, n) - (if Joins(a, b[..n], threshold) then 1 else 0)
  {
    if n == 0 {
      PrefixOnsets(a, b, threshold, |a|);
    } else {
      SuffixOnsets(a, b, threshold, n - 1);
      var k := n - 1;
      assert forall i ::
        Hot(a + b, threshold, i) == if i < |a| then Hot(a, threshold, i) else Hot(b, threshold, i - |a|);
    }
  }

  /** Counted apart, two stretches give the clicks of both together, or one more exactly when a click joins them. */
  lemma {:induction false} ConcatenationLosesAtMostOne(a: seq<real>, b: seq<real>, threshold: real)
    ensures Onsets(a + b, threshold, |a + b|) ==
            Onsets(a, threshold, |a|) + Onsets(b, threshold, |b|) - (if Joins(a, b, threshold) then 1 else 0)
  {
    SuffixOnsets(a, b, threshold, |b|);
    assert b[..|b|] == b;
  }
}
