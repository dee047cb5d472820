/** Metrics: the totals `updateResults` accumulates over the finished
    processes before it divides them by their number for the averages. */
module Metrics {
  import opened Processes
  import opened Timeline

  /** A per-process number: the three the results table sums (completion,
      turnaround, waiting) and the two inputs they are derived from. */
  datatype Metric = CT | TAT | WT | AT | BT

  function Value(p: Process, m: Metric): int {
    match m
    case CT => p.ct
    case TAT => p.tat
    case WT => p.wt
    case AT => p.at
    case BT => p.bt
  }

  /** The sum of metric `m` over `ps`, added up in list order. */
  function Total(ps: seq<Process>, m: Metric): int {
    if ps == [] then 0 else Total(ps[..|ps| - 1], m) + Value(ps[|ps| - 1], m)
  }

  /** The `forEach` of `updateResults`: the three running totals, each
      starting at 0 and growing by one process at a time. */
  method Totals(ps: seq<Process>) returns (totalTAT: int, totalWT: int, totalCT: int)
    ensures totalTAT == Total(ps, TAT) && totalWT == Total(ps, WT) && totalCT == Total(ps, CT)
  {
    totalTAT, totalWT, totalCT := 0, 0, 0;
    var i := 0;
    while i < |ps|
      invariant i <= |ps|
      invariant totalTAT == Total(ps[..i], TAT) && totalWT == Total(ps[..i], WT) && totalCT == Total(ps[..i], CT)
    {
      assert ps[..i + 1][..i] == ps[..i];
      totalTAT := totalTAT + ps[i].tat;
      totalWT := totalWT + ps[i].wt;
      totalCT := totalCT + ps[i].ct;
      i := i + 1;
    }
    assert ps[..i] == ps;
  }

  /** When every process's metrics are consistent, so are the totals:
      total turnaround is total completion minus total arrival, and total
      waiting is total turnaround minus total burst. */
  lemma {:induction false} TotalsConsistent(ps: seq<Process>)
    requires forall k :: 0 <= k < |ps| ==> MetricsConsistent(ps[k])
    ensures Total(ps, TAT) == Total(ps, CT) - Total(ps, AT)
    ensures Total(ps, WT) == Total(ps, TAT) - Total(ps, BT)
  {
    if ps != [] {
      var init := ps[..|ps| - 1];
      assert forall k :: 0 <= k < |init| ==> init[k] == ps[k];
      TotalsConsistent(init);
      assert MetricsConsistent(ps[|ps| - 1]);
    }
  }

  /** A metric that is nowhere negative has a non-negative total. */
  lemma {:induction false} TotalNonNegative(ps: seq<Process>, m: Metric)
    requires forall k :: 0 <= k < |ps| ==> Value(ps[k], m) >= 0
    ensures Total(ps, m) >= 0
  {
    if ps != [] {
      var init := ps[..|ps| - 1];
      assert forall k :: 0 <= k < |init| ==> init[k] == ps[k];
      TotalNonNegative(init, m);
      assert Value(ps[|ps| - 1], m) >= 0;
    }
  }

  /** For the processes of a correct schedule the totals are consistent,
      total waiting is never negative, and total turnaround is at least the
      total burst. */
  lemma TotalsOfSchedule(g: seq<Block>, ps: seq<Process>)
    requires ValidSchedule(g, ps) && PositiveBursts(ps)
    ensures Total(ps, TAT) == Total(ps, CT) - Total(ps, AT)
    ensures Total(ps, WT) == Total(ps, TAT) - Total(ps, BT)
    ensures Total(ps, WT) >= 0 && Total(ps, TAT) >= Total(ps, BT)
  {
    forall k | 0 <= k < |ps| ensures MetricsConsistent(ps[k]) {
      assert Accounted(g, ps[k]);
    }
    TotalsConsistent(ps);
    WaitingTimeNonNegative(g, ps);
    TotalNonNegative(ps, WT);
  }
}
