/** Shortest Remaining Time First, preemptive: the clock advances one unit
    at a time, and in every unit the arrived, unfinished process with the
    least remaining time runs; when nobody is ready the clock jumps to the
    next arrival. The processes keep their registry order (no sort). */
module Srtf {
  import opened Processes
  import opened Timeline
  import opened BlockMerge
  import opened Slices

  /** At a tick process `j` goes before `k`: less time left, or as much and
      an earlier place in the registry. */
  predicate LessRemaining(ps: seq<Process>, j: nat, k: nat)
    requires j < |ps| && k < |ps|
  {
    ps[j].rt < ps[k].rt || (ps[j].rt == ps[k].rt && j <= k)
  }

  /** The selection loop of `srtfScheduling`: the first ready process with
      the least remaining time, or `None` (the source's `-1`). */
  method ShortestRemaining(procs: seq<Process>, t: nat) returns (pick: Option<nat>)
    ensures pick.None? <==> forall k :: 0 <= k < |procs| ==> !Ready(procs[k], t)
    ensures pick.Some? ==> pick.value < |procs| && Ready(procs[pick.value], t)
    ensures pick.Some? ==> forall k :: 0 <= k < |procs| && Ready(procs[k], t) ==> LessRemaining(procs, pick.value, k)
  {
    pick := None;
    var i := 0;
    while i < |procs|
      invariant i <= |procs|
      invariant pick.None? <==> forall k :: 0 <= k < i ==> !Ready(procs[k], t)
      invariant pick.Some? ==> pick.value < i && Ready(procs[pick.value], t)
      invariant pick.Some? ==> forall k :: 0 <= k < i && Ready(procs[k], t) ==> LessRemaining(procs, pick.value, k)
    {
      if Ready(procs[i], t) && (pick.None? || procs[i].rt < procs[pick.value].rt) {
        pick := Some(i);
      }
      i := i + 1;
    }
  }

  /** `Math.min` over the arrival times: where the clock starts. The source
      gets `Infinity` for an empty list and then never enters its loop; the
      model returns 0 there. */
  function EarliestArrival(ps: seq<Process>): (t: nat)
    ensures forall k :: 0 <= k < |ps| ==> t <= ps[k].at
    ensures |ps| > 0 ==> exists k :: 0 <= k < |ps| && ps[k].at == t
  {
    if |ps| == 0 then 0
    else if |ps| == 1 then ps[0].at
    else
      var r := EarliestArrival(ps[1..]);
      assert forall k :: 1 <= k < |ps| ==> ps[k] == ps[1..][k - 1];
      if ps[0].at <= r then ps[0].at else r
  }

  // ---------------------------------------------------------------------
  // The Gantt bookkeeping of one tick.

  /** How the tick `[t, t + 1)` of process `pid` enters the chart, with the
      previously running process `prev`: a new block on a switch, otherwise
      the last block grows by one unit. Unlike the source, the previous
      block is left as it is on a switch (see `RecordTickAsWritten`). */
  function RecordTick(gantt: seq<Block>, prev: Option<Pid>, pid: Pid, t: nat): (g: seq<Block>)
    ensures prev != Some(pid) ==> g == gantt + [Block(pid, t, t + 1)]
    ensures prev == Some(pid) && |gantt| > 0 ==>
      |g| == |gantt| && g[..|g| - 1] == gantt[..|gantt| - 1] && g[|g| - 1] == Join(gantt[|gantt| - 1], Block(pid, t, t + 1))
  {
    if prev != Some(pid) then gantt + [Block(pid, t, t + 1)]
    else if |gantt| > 0 then gantt[..|gantt| - 1] + [gantt[|gantt| - 1].(endTime := t + 1)]
    else gantt
  }

  /** The chart is the merge of the unit ticks: recording one more tick is
      merging one more unit block. */
  lemma RecordTickMerges(ticks: seq<Block>, gantt: seq<Block>, prev: Option<Pid>, pid: Pid, t: nat)
    requires gantt == Merge(ticks) && prev == LastPid(gantt)
    ensures RecordTick(gantt, prev, pid, t) == Merge(ticks + [Block(pid, t, t + 1)])
    ensures LastPid(RecordTick(gantt, prev, pid, t)) == Some(pid)
  {
    MergeSnoc(ticks, Block(pid, t, t + 1));
  }

  /** The bookkeeping as the source writes it: on a switch it first sets the
      previous block's end to the current time (line 421), which stretches
      that block over any idle gap the clock has just jumped. */
  function RecordTickAsWritten(gantt: seq<Block>, prev: Option<Pid>, pid: Pid, t: nat): (g: seq<Block>)
    ensures prev != Some(pid) ==> |g| == |gantt| + 1 && g[|g| - 1] == Block(pid, t, t + 1)
  {
    if prev != Some(pid) then
      var closed := if |gantt| > 0 && prev.Some? then gantt[..|gantt| - 1] + [gantt[|gantt| - 1].(endTime := t)] else gantt;
      closed + [Block(pid, t, t + 1)]
    else if |gantt| > 0 then gantt[..|gantt| - 1] + [gantt[|gantt| - 1].(endTime := t + 1)]
    else gantt
  }

  /** Without an idle gap before the tick the source's bookkeeping and the
      corrected one agree. */
  lemma AsWrittenAgreesWithoutGap(gantt: seq<Block>, prev: Option<Pid>, pid: Pid, t: nat)
    requires prev == LastPid(gantt) && LastEnd(gantt) == t
    ensures RecordTickAsWritten(gantt, prev, pid, t) == RecordTick(gantt, prev, pid, t)
  {
    if prev != Some(pid) && |gantt| > 0 {
      assert gantt[|gantt| - 1].(endTime := t) == gantt[|gantt| - 1];
      assert gantt[..|gantt| - 1] + [gantt[|gantt| - 1]] == gantt;
    }
  }

  /** Processes A (id 1, arrival 0, burst 2) and B (id 2, arrival 5, burst
      1): A runs the ticks at 0 and 1, and from the empty chart both
      bookkeepings record them as the block [0, 2). */
  lemma FirstTicksOfA()
    ensures RecordTickAsWritten(RecordTickAsWritten([], None, 1, 0), Some(1), 1, 1) == [Block(1, 0, 2)]
    ensures RecordTick(RecordTick([], None, 1, 0), Some(1), 1, 1) == [Block(1, 0, 2)]
  {
  }

  /** Then nobody is ready at 2, the clock jumps to 5 and B is picked. The
      source stretches A's block to [0, 5), so the chart gives A 5 units of
      CPU for a burst of 2 and shows the idle CPU as busy; the corrected
      bookkeeping keeps A at [0, 2). */
  lemma AsWrittenStretchesIdleGap()
    ensures RecordTickAsWritten([Block(1, 0, 2)], Some(1), 2, 5) == [Block(1, 0, 5), Block(2, 5, 6)]
    ensures Work(RecordTickAsWritten([Block(1, 0, 2)], Some(1), 2, 5), 1) == 5
    ensures RecordTick([Block(1, 0, 2)], Some(1), 2, 5) == [Block(1, 0, 2), Block(2, 5, 6)]
    ensures Work(RecordTick([Block(1, 0, 2)], Some(1), 2, 5), 1) == 2
  {
    var w := RecordTickAsWritten([Block(1, 0, 2)], Some(1), 2, 5);
    assert w == [Block(1, 0, 5), Block(2, 5, 6)];
    assert w[1..] == [Block(2, 5, 6)] && w[1..][1..] == [];
    var c := RecordTick([Block(1, 0, 2)], Some(1), 2, 5);
    assert c == [Block(1, 0, 2), Block(2, 5, 6)];
    assert c[1..] == [Block(2, 5, 6)] && c[1..][1..] == [];
  }

  // ---------------------------------------------------------------------
  // The SRTF rule over the unit ticks.

  /** Whenever tick `i` ran process `j`, every process `k` that had arrived
      and had time left at that moment had at least as much left as `j`,
      and on a tie `j` comes first in the registry. */
  predicate RemainingFirst(ticks: seq<Block>, ps: seq<Process>) {
    forall i, j, k ::
      (0 <= i < |ticks| && 0 <= j < |ps| && 0 <= k < |ps| &&
       ticks[i].pid == ps[j].pid && ps[k].at <= ticks[i].startTime && Left(ticks, ps[k], i) > 0) ==>
        Left(ticks, ps[j], i) < Left(ticks, ps[k], i) || (Left(ticks, ps[j], i) == Left(ticks, ps[k], i) && j <= k)
  }

  /** Every tick lasts one unit. */
  predicate UnitTicks(ticks: seq<Block>) {
    forall i :: 0 <= i < |ticks| ==> ticks[i].endTime == ticks[i].startTime + 1
  }

  lemma AppendUnitTick(ticks: seq<Block>, b: Block)
    requires UnitTicks(ticks) && b.endTime == b.startTime + 1
    ensures UnitTicks(ticks + [b])
  {
  }

  lemma TickKeepsRule(procs: seq<Process>, ticks: seq<Block>, t: nat, idx: nat, procs': seq<Process>, ticks': seq<Block>)
    requires RemainingFirst(ticks, procs) && UniquePids(procs)
    requires forall k :: 0 <= k < |procs| ==> procs[k].rt + Work(ticks, procs[k].pid) == procs[k].bt
    requires idx < |procs| && Ready(procs[idx], t)
    requires forall k :: 0 <= k < |procs| && Ready(procs[k], t) ==> LessRemaining(procs, idx, k)
    requires procs' == procs[idx := RunFor(procs[idx], 1, t)] && ticks' == ticks + [Block(procs[idx].pid, t, t + 1)]
    ensures RemainingFirst(ticks', procs')
  {
    forall i, j, k | 0 <= i < |ticks'| && 0 <= j < |procs'| && 0 <= k < |procs'| &&
      ticks'[i].pid == procs'[j].pid && procs'[k].at <= ticks'[i].startTime && Left(ticks', procs'[k], i) > 0
      ensures Left(ticks', procs'[j], i) < Left(ticks', procs'[k], i) || (Left(ticks', procs'[j], i) == Left(ticks', procs'[k], i) && j <= k)
    {
      assert SameJob(procs'[j], procs[j]) && SameJob(procs'[k], procs[k]);
      if i < |ticks| {
        assert ticks'[..i] == ticks[..i] && ticks'[i] == ticks[i];
        assert Left(ticks', procs'[j], i) == Left(ticks, procs[j], i);
        assert Left(ticks', procs'[k], i) == Left(ticks, procs[k], i);
      } else {
        assert ticks'[..i] == ticks;
        assert j == idx;
        assert Ready(procs[k], t);
      }
    }
  }

  /** The invariant of `srtfScheduling`'s loop: the processes (in registry
      order), the unit ticks run so far, the chart built from them, the
      previously running process and the clock. */
  predicate LoopState(jobs: seq<Process>, procs: seq<Process>, ticks: seq<Block>, gantt: seq<Block>,
                      prev: Option<Pid>, t: nat, completed: nat)
  {
    && SameJobs(procs, jobs) && completed <= |procs|
    && Progress(procs, ticks, t, completed)
    && RemainingFirst(ticks, procs) && UnitTicks(ticks)
    && gantt == Merge(ticks) && prev == LastPid(gantt)
  }

  lemma TickKeepsProgress(procs: seq<Process>, ticks: seq<Block>, t: nat, completed: nat, idx: nat,
                          procs': seq<Process>, ticks': seq<Block>)
    requires Progress(procs, ticks, t, completed) && Admissible(procs)
    requires idx < |procs| && Ready(procs[idx], t)
    requires procs' == procs[idx := RunFor(procs[idx], 1, t)] && ticks' == ticks + [Block(procs[idx].pid, t, t + 1)]
    ensures Progress(procs', ticks', t + 1, completed + (if procs'[idx].rt == 0 then 1 else 0))
  {
    SliceKeepsProgress(procs, ticks, t, completed, idx, 1, procs', ticks');
  }

  /** One pass of the loop that runs the picked process for one unit. */
  lemma TickBranch(jobs: seq<Process>, procs: seq<Process>, ticks: seq<Block>, gantt: seq<Block>,
                   prev: Option<Pid>, t: nat, completed: nat, idx: nat,
                   procs': seq<Process>, ticks': seq<Block>, gantt': seq<Block>, completed': nat)
    requires LoopState(jobs, procs, ticks, gantt, prev, t, completed) && Admissible(jobs)
    requires idx < |procs| && Ready(procs[idx], t)
    requires forall k :: 0 <= k < |procs| && Ready(procs[k], t) ==> LessRemaining(procs, idx, k)
    requires procs' == procs[idx := RunFor(procs[idx], 1, t)] && ticks' == ticks + [Block(procs[idx].pid, t, t + 1)]
    requires gantt' == RecordTick(gantt, prev, procs[idx].pid, t)
    requires completed' == completed + (if procs'[idx].rt == 0 then 1 else 0)
    ensures LoopState(jobs, procs', ticks', gantt', Some(procs[idx].pid), t + 1, completed')
    ensures TotalRemaining(procs') < TotalRemaining(procs)
  {
    SameJobsKeep(procs, jobs);
    TickKeepsProgress(procs, ticks, t, completed, idx, procs', ticks');
    assert RemainingFirst(ticks', procs') by {
      TickKeepsRule(procs, ticks, t, idx, procs', ticks');
    }
    assert gantt' == Merge(ticks') && Some(procs[idx].pid) == LastPid(gantt') by {
      RecordTickMerges(ticks, gantt, prev, procs[idx].pid, t);
    }
    assert completed' <= |procs'| by {
      CountFinishedAll(procs');
    }
    assert TotalRemaining(procs') < TotalRemaining(procs) by {
      TotalRemainingUpdate(procs, idx, RunFor(procs[idx], 1, t));
    }
    SameJobsUpdate(procs, jobs, idx, RunFor(procs[idx], 1, t));
    AppendUnitTick(ticks, Block(procs[idx].pid, t, t + 1));
  }

  /** One pass of the loop in which nobody is ready: the clock jumps. */
  lemma JumpBranch(jobs: seq<Process>, procs: seq<Process>, ticks: seq<Block>, gantt: seq<Block>,
                   prev: Option<Pid>, t: nat, completed: nat, next: Option<nat>)
    requires LoopState(jobs, procs, ticks, gantt, prev, t, completed) && completed < |procs| && Admissible(jobs)
    requires forall k :: 0 <= k < |procs| ==> !Ready(procs[k], t)
    requires next.None? <==> forall k :: 0 <= k < |procs| ==> procs[k].rt == 0
    requires next.Some? ==> exists k :: 0 <= k < |procs| && procs[k].rt > 0 && procs[k].at == next.value
    requires next.Some? ==> forall k :: 0 <= k < |procs| && procs[k].rt > 0 ==> next.value <= procs[k].at
    ensures next.Some? && t < next.value && AnyReady(procs, next.value)
    ensures LoopState(jobs, procs, ticks, gantt, prev, next.value, completed)
  {
    CountFinishedAll(procs);
    SameJobsKeep(procs, jobs);
    JumpKeepsProgress(procs, ticks, t, completed, next.value);
  }

  /** One pass of `srtfScheduling`'s loop: run the ready process with the
      least remaining time for one unit, or jump to the next arrival when
      nobody is ready. The tick record grows by one tick when someone ran
      and stays as it was otherwise. */
  method Decide(ghost jobs: seq<Process>, procs: seq<Process>, ghost ticks: seq<Block>, gantt: seq<Block>,
                prev: Option<Pid>, t: nat, completed: nat)
    returns (procs': seq<Process>, ghost ticks': seq<Block>, gantt': seq<Block>, prev': Option<Pid>, t': nat, completed': nat)
    requires Admissible(jobs) && LoopState(jobs, procs, ticks, gantt, prev, t, completed) && completed < |procs|
    ensures |procs'| == |procs| && LoopState(jobs, procs', ticks', gantt', prev', t', completed')
    ensures AnyReady(procs, t) ==> t' == t + 1 && TotalRemaining(procs') < TotalRemaining(procs)
    ensures ticks <= ticks' && |ticks'| == |ticks| + (if AnyReady(procs, t) then 1 else 0)
    ensures !AnyReady(procs, t) ==> procs' == procs && gantt' == gantt && prev' == prev && t < t' && AnyReady(procs', t')
    ensures !AnyReady(procs, t) ==> forall k :: 0 <= k < |procs| && procs[k].rt > 0 ==> t' <= procs[k].at
  {
    var pick := ShortestRemaining(procs, t);
    if pick.None? {
      var next := EarliestPendingArrival(procs);
      JumpBranch(jobs, procs, ticks, gantt, prev, t, completed, next);
      procs', ticks', gantt', prev', t', completed' := procs, ticks, gantt, prev, next.value, completed;
    } else {
      var idx := pick.value;
      var p := procs[idx];
      gantt' := RecordTick(gantt, prev, p.pid, t);
      ticks' := ticks + [Block(p.pid, t, t + 1)];
      var q := RunFor(p, 1, t);
      procs' := procs[idx := q];
      completed' := completed + (if q.rt == 0 then 1 else 0);
      TickBranch(jobs, procs, ticks, gantt, prev, t, completed, idx, procs', ticks', gantt', completed');
      prev', t' := Some(p.pid), t + 1;
    }
  }

  lemma InitialState(jobs: seq<Process>)
    requires Admissible(jobs) && forall k :: 0 <= k < |jobs| ==> Fresh(jobs[k])
    ensures LoopState(jobs, jobs, [], [], None, EarliestArrival(jobs), 0)
  {
    EmptyIsPartialSchedule(jobs);
    CountNoneFinished(jobs);
  }

  /** The loop of `srtfScheduling` over the clones, in registry order,
      followed by its final merge. `ticks` is the unit-by-unit record of
      which process held the CPU; the chart is its merge. */
  method RunToCompletion(jobs: seq<Process>) returns (gantt: seq<Block>, procs: seq<Process>, ghost ticks: seq<Block>)
    requires Admissible(jobs) && forall k :: 0 <= k < |jobs| ==> Fresh(jobs[k])
    ensures SameJobs(procs, jobs) && Progress(procs, ticks, LastEnd(ticks), |procs|)
    ensures gantt == Merge(ticks) && UnitTicks(ticks) && RemainingFirst(ticks, procs)
  {
    procs := jobs;
    var n := |procs|;
    var completed: nat := 0;
    gantt := [];
    ticks := [];
    var prev: Option<Pid> := None;
    var currentTime := EarliestArrival(procs);
    InitialState(jobs);
    while completed < n
      invariant |procs| == n && LoopState(jobs, procs, ticks, gantt, prev, currentTime, completed)
      decreases TotalRemaining(procs), if AnyReady(procs, currentTime) then 0 else 1
    {
      var procs', ticks', gantt', prev', t', completed' := Decide(jobs, procs, ticks, gantt, prev, currentTime, completed);
      procs, ticks, gantt, prev, currentTime, completed := procs', ticks', gantt', prev', t', completed';
    }
    FinalClock(procs, ticks, currentTime);
  }

  /** `srtfScheduling`: the Gantt blocks and the finished clones, in
      registry order. `ticks` is the unit-by-unit record of which process
      held the CPU; the chart is its merge, and merging it once more (the
      source's final `mergeAdjacentBlocks`) changes nothing. */
  method Srtf(processes: seq<Process>) returns (gantt: seq<Block>, procs: seq<Process>, ghost ticks: seq<Block>)
    requires Admissible(processes)
    ensures SameJobs(procs, processes) && AllFinished(procs)
    ensures ValidSchedule(gantt, procs) && NeverIdleWhenReady(gantt, procs) && Separated(gantt)
    ensures gantt == Merge(ticks) && UnitTicks(ticks)
    ensures ValidSchedule(ticks, procs) && RemainingFirst(ticks, procs)
  {
    var jobs := Clones(processes);
    ClonesKeepJobs(processes);
    gantt, procs, ticks := RunToCompletion(jobs);
    SameJobsTrans(procs, jobs, processes);
    AllRun(procs, ticks, gantt, LastEnd(ticks));
    MergeIsIdempotent(ticks);
    gantt := MergeAdjacentBlocks(gantt);
  }
}
