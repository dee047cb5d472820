/** Slices: what the two preemptive policies, SRTF and Round Robin, share.
    Both run a process for a slice of its remaining time, complete it when
    nothing is left, and build their chart as the merge of the slices they
    ran; both jump the clock to the next arrival when nobody is ready. */
module Slices {
  import opened Processes
  import opened Timeline
  import opened BlockMerge

  /** Running `p` for `e` units from `t`: `p.rt -= e`, and when nothing is
      left the completion metrics are set at `t + e`. */
  function RunFor(p: Process, e: nat, t: nat): (q: Process)
    requires 0 < e <= p.rt
    ensures SameJob(q, p) && q.rt == p.rt - e
    ensures q.rt == 0 ==> q.ct == t + e && MetricsConsistent(q)
    ensures q.rt > 0 ==> q == p.(rt := p.rt - e)
  {
    var q := p.(rt := p.rt - e);
    if q.rt == 0 then Complete(q, t + e) else q
  }

  /** The state of a preemptive scheduler's loop at clock `t`, over the
      slices run so far: a partial schedule in which every process's
      remaining time is its burst minus the CPU time it received, no idle
      gap is left open while someone has arrived, and a process's
      consecutive slices touch. */
  predicate Progress(procs: seq<Process>, g: seq<Block>, t: nat, completed: nat) {
    && completed == CountFinished(procs)
    && PartialSchedule(g, procs)
    && SamePidContiguous(g)
    && (forall k :: 0 <= k < |procs| ==> procs[k].rt + Work(g, procs[k].pid) == procs[k].bt)
    && LastEnd(g) <= t
    && (|g| == 0 ==> forall k :: 0 <= k < |procs| ==> t <= procs[k].at)
    && (LastEnd(g) < t ==> forall k :: 0 <= k < |procs| && procs[k].at < t ==> procs[k].rt == 0)
  }

  /** The time `p` had left just before slice `i`. */
  function Left(g: seq<Block>, p: Process, i: nat): int
    requires i <= |g|
  {
    p.bt - Work(g[..i], p.pid)
  }

  /** A slice of a ready process keeps consecutive slices of one process
      touching: if the last slice was its own, the clock has not moved since
      (after an idle gap every arrived process has finished). */
  lemma AppendKeepsContiguous(procs: seq<Process>, g: seq<Block>, t: nat, idx: nat, e: nat)
    requires PartialSchedule(g, procs) && UniquePids(procs) && LastEnd(g) <= t
    requires LastEnd(g) < t ==> forall k :: 0 <= k < |procs| && procs[k].at < t ==> procs[k].rt == 0
    requires idx < |procs| && Ready(procs[idx], t)
    requires SamePidContiguous(g)
    ensures SamePidContiguous(g + [Block(procs[idx].pid, t, t + e)])
  {
    var o := g + [Block(procs[idx].pid, t, t + e)];
    if |g| > 0 && g[|g| - 1].pid == procs[idx].pid {
      var last := g[|g| - 1];
      assert procs[idx].at <= last.startTime < last.endTime;
    }
    forall i | 0 <= i < |o| - 1 && o[i].pid == o[i + 1].pid ensures o[i].endTime == o[i + 1].startTime {
      if i < |g| - 1 { assert o[i] == g[i] && o[i + 1] == g[i + 1]; }
    }
  }

  /** Running the ready process `idx` for `e` units from `t` keeps the
      loop's state; the count of finished processes grows when it
      completes. */
  lemma SliceKeepsProgress(procs: seq<Process>, g: seq<Block>, t: nat, completed: nat, idx: nat, e: nat,
                           procs': seq<Process>, g': seq<Block>)
    requires Progress(procs, g, t, completed) && Admissible(procs)
    requires idx < |procs| && Ready(procs[idx], t) && 0 < e <= procs[idx].rt
    requires procs' == procs[idx := RunFor(procs[idx], e, t)] && g' == g + [Block(procs[idx].pid, t, t + e)]
    ensures Progress(procs', g', t + e, completed + (if procs'[idx].rt == 0 then 1 else 0))
  {
    var b := Block(procs[idx].pid, t, t + e);
    assert MayStartAt(g, procs, t) by {
      forall k | 0 <= k < |procs| && procs[k].at < t && LastEnd(g) < t ensures Done(g, procs[k]) {
        assert procs[k].rt == 0;
      }
    }
    RunStep(g, procs, b, idx, RunFor(procs[idx], e, t));
    AppendKeepsContiguous(procs, g, t, idx, e);
    forall k | 0 <= k < |procs'| ensures procs'[k].rt + Work(g', procs'[k].pid) == procs'[k].bt {
      if k != idx { assert procs'[k] == procs[k]; }
    }
    CountFinishedUpdate(procs, idx, RunFor(procs[idx], e, t));
  }

  /** When nobody is ready, jumping the clock to the earliest arrival among
      the unfinished processes keeps the loop's state and makes somebody
      ready. */
  lemma JumpKeepsProgress(procs: seq<Process>, g: seq<Block>, t: nat, completed: nat, next: nat)
    requires Progress(procs, g, t, completed) && PositiveBursts(procs)
    requires forall k :: 0 <= k < |procs| ==> !Ready(procs[k], t)
    requires exists k :: 0 <= k < |procs| && procs[k].rt > 0 && procs[k].at == next
    requires forall k :: 0 <= k < |procs| && procs[k].rt > 0 ==> next <= procs[k].at
    ensures t < next && Progress(procs, g, next, completed) && AnyReady(procs, next)
  {
    var w :| 0 <= w < |procs| && procs[w].rt > 0 && procs[w].at == next;
    assert !Ready(procs[w], t) && Ready(procs[w], next);
    if |g| == 0 {
      forall k | 0 <= k < |procs| ensures procs[k].rt > 0 {
        assert procs[k].bt > 0;
      }
    }
  }

  /** After the last slice the clock may be taken as the timeline's end. */
  lemma FinalClock(procs: seq<Process>, g: seq<Block>, t: nat)
    requires Progress(procs, g, t, |procs|)
    ensures Progress(procs, g, LastEnd(g), |procs|)
  {
    CountFinishedAll(procs);
  }

  /** Once every process has finished, the slices form a correct schedule
      and so does the chart merged from them. */
  lemma AllRun(procs: seq<Process>, g: seq<Block>, gantt: seq<Block>, t: nat)
    requires Progress(procs, g, t, |procs|) && gantt == Merge(g)
    ensures AllFinished(procs)
    ensures ValidSchedule(g, procs) && NeverIdleWhenReady(g, procs)
    ensures ValidSchedule(gantt, procs) && NeverIdleWhenReady(gantt, procs) && Separated(gantt)
  {
    CountFinishedAll(procs);
    CompletedSchedule(g, procs);
    MergeKeepsSchedule(g, procs);
  }
}
