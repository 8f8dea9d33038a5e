/** `check_metrics`: quantified-achievement matches scored `min(10 * count, 100)`. */
module Metrics {

  /** The five patterns searched in the lowercased résumé, in order. */
  const MetricPatterns: seq<string> := [
    "\\d+%",
    "\\$\\d+[kKmM]?",
    "\\d+\\+?\\s+(years|projects|clients|teams)",
    "increased\\s+\\w+\\s+by\\s+\\d+%",
    "\\d+\\s+(certifications|awards|publications)"
  ]

  /** `sum(...)` of the per-pattern match counts. */
  function Sum(xs: seq<nat>): (r: nat)
    ensures r == 0 <==> forall k :: 0 <= k < |xs| ==> xs[k] == 0
  {
    if xs == [] then 0
    else
      var rest := Sum(xs[1..]);
      assert forall k :: 1 <= k < |xs| ==> xs[k] == xs[1..][k - 1];
      xs[0] + rest
  }

  /** Every pattern's count is part of the total. */
  lemma {:induction false} SumAtLeastEach(xs: seq<nat>, i: nat)
    requires i < |xs|
    ensures xs[i] <= Sum(xs)
  {
    if i > 0 {
      SumAtLeastEach(xs[1..], i - 1);
    }
  }

  /** `min(matches * 10, 100)`. */
  function MetricScore(matches: nat): (score: nat)
    ensures score <= 100
    ensures score == 100 <==> matches >= 10
    ensures matches < 10 ==> score == 10 * matches
  {
    if matches * 10 <= 100 then matches * 10 else 100
  }

  /**
   * `check_metrics(text)`: `counts[k]` is the number of non-overlapping
   * matches of `MetricPatterns[k]` in the lowercased text.
   */
  function CheckMetrics(counts: seq<nat>): (r: (nat, nat))
    ensures r.0 <= 100
    ensures r.0 == 100 <==> r.1 >= 10
    ensures forall k :: 0 <= k < |counts| ==> counts[k] <= r.1
    ensures r.1 == Sum(counts) && r.0 == MetricScore(r.1)
    ensures r.0 == 0 <==> forall k :: 0 <= k < |counts| ==> counts[k] == 0
  {
    forall k | 0 <= k < |counts| ensures counts[k] <= Sum(counts) {
      SumAtLeastEach(counts, k);
    }
    (MetricScore(Sum(counts)), Sum(counts))
  }

  /** More matches never lower the score. */
  lemma MetricMonotone(a: nat, b: nat)
    requires a <= b
    ensures MetricScore(a) <= MetricScore(b)
  {
  }

  /** The metric suggestion (score below 40) fires exactly when fewer than four matches were found. */
  lemma MetricBelow40Iff(matches: nat)
    ensures MetricScore(matches) < 40 <==> matches < 4
  {
  }
}
