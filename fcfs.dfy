/** First-Come, First-Served: the clones run one after another in arrival
    order, each for its whole burst, the CPU idling until the next arrival
    when it is free before then. */
module Fcfs {
  import opened Processes
  import opened Timeline

  /** Block `k` runs process `k` of the arrival-ordered list, from the later
      of the previous block's end and the process's arrival, for its burst. */
  predicate RunsInListOrder(gantt: seq<Block>, procs: seq<Process>, n: nat)
    requires n <= |gantt| && n <= |procs|
  {
    forall k {:trigger gantt[k], procs[k]} :: 0 <= k < n ==>
      && gantt[k].pid == procs[k].pid
      && gantt[k].startTime == Max(if k == 0 then 0 else gantt[k - 1].endTime, procs[k].at)
      && gantt[k].endTime == gantt[k].startTime + procs[k].bt
  }

  /** What holds of the schedule after the first `i` processes of the
      list have run. */
  predicate ScheduleInvariant(procs: seq<Process>, gantt: seq<Block>, i: nat) {
    && i <= |procs| && |gantt| == i
    && RunsInListOrder(gantt, procs, i)
    && PartialSchedule(gantt, procs)
    && (forall k :: 0 <= k < i ==> Done(gantt, procs[k]))
    && (forall k :: i <= k < |procs| ==> Work(gantt, procs[k].pid) == 0)
  }

  /** The next block may start at the later of the CPU's free time and the
      next arrival: whoever arrived earlier comes earlier in the list and has
      run already. */
  lemma NextMayStart(procs: seq<Process>, gantt: seq<Block>, i: nat, startTime: nat)
    requires i < |procs| && |gantt| == i && ArrivalOrdered(procs)
    requires forall k :: 0 <= k < i ==> Done(gantt, procs[k])
    requires startTime == Max(LastEnd(gantt), procs[i].at)
    ensures MayStartAt(gantt, procs, startTime)
  {
    forall k | 0 <= k < |procs| && procs[k].at < startTime && LastEnd(gantt) < startTime
      ensures Done(gantt, procs[k])
    {
    }
    if |gantt| == 0 {
      forall k | 0 <= k < |procs| ensures startTime <= procs[k].at {
        if k > 0 { assert procs[0].at <= procs[k].at; }
      }
    }
  }

  lemma ListOrderStep(procs: seq<Process>, gantt: seq<Block>, i: nat, q: Process, startTime: nat, endTime: nat)
    requires i < |procs| && |gantt| == i && RunsInListOrder(gantt, procs, i) && SameJob(q, procs[i])
    requires startTime == Max(LastEnd(gantt), procs[i].at) && endTime == startTime + procs[i].bt
    ensures RunsInListOrder(gantt + [Block(procs[i].pid, startTime, endTime)], procs[i := q], i + 1)
  {
    var gantt', procs' := gantt + [Block(procs[i].pid, startTime, endTime)], procs[i := q];
    forall k | 0 <= k <= i
      ensures gantt'[k].pid == procs'[k].pid
      ensures gantt'[k].startTime == Max(if k == 0 then 0 else gantt'[k - 1].endTime, procs'[k].at)
      ensures gantt'[k].endTime == gantt'[k].startTime + procs'[k].bt
    {
      if k < i {
        assert gantt'[k] == gantt[k] && procs'[k] == procs[k];
        if k > 0 { assert gantt'[k - 1] == gantt[k - 1]; }
      } else if k > 0 {
        assert gantt'[k - 1] == gantt[k - 1];
        assert LastEnd(gantt) == gantt[k - 1].endTime;
      }
    }
  }

  lemma DoneStep(procs: seq<Process>, gantt: seq<Block>, i: nat, b: Block, q: Process, procs': seq<Process>)
    requires i < |procs| && SameJob(q, procs[i]) && Length(b) == procs[i].bt && procs' == procs[i := q]
    requires forall k :: 0 <= k < i ==> Done(gantt, procs[k])
    requires forall k :: i <= k < |procs| ==> Work(gantt, procs[k].pid) == 0
    requires forall k :: 0 <= k < |procs| ==> Work(gantt + [b], procs[k].pid) == Work(gantt, procs[k].pid) + (if k == i then Length(b) else 0)
    ensures forall k :: 0 <= k < i + 1 ==> Done(gantt + [b], procs'[k])
    ensures forall k :: i + 1 <= k < |procs'| ==> Work(gantt + [b], procs'[k].pid) == 0
  {
  }

  lemma ScheduleStep(procs: seq<Process>, gantt: seq<Block>, i: nat, startTime: nat, endTime: nat)
    requires ScheduleInvariant(procs, gantt, i) && i < |procs| && Admissible(procs) && ArrivalOrdered(procs)
    requires startTime == Max(LastEnd(gantt), procs[i].at) && endTime == startTime + procs[i].bt
    ensures ScheduleInvariant(procs[i := Complete(procs[i], endTime)], gantt + [Block(procs[i].pid, startTime, endTime)], i + 1)
  {
    var b := Block(procs[i].pid, startTime, endTime);
    var q := Complete(procs[i], endTime);
    NextMayStart(procs, gantt, i, startTime);
    RunStep(gantt, procs, b, i, q);
    ListOrderStep(procs, gantt, i, q, startTime, endTime);
    DoneStep(procs, gantt, i, b, q, procs[i := q]);
  }

  lemma AllRun(sorted: seq<Process>, procs: seq<Process>, gantt: seq<Block>)
    requires SameJobs(procs, sorted) && ArrivalOrdered(sorted)
    requires ScheduleInvariant(procs, gantt, |procs|)
    ensures ArrivalOrdered(procs) && |gantt| == |procs| && RunsInListOrder(gantt, procs, |procs|)
    ensures ValidSchedule(gantt, procs) && NeverIdleWhenReady(gantt, procs)
  {
    SameJobsKeep(procs, sorted);
    CompletedSchedule(gantt, procs);
  }

  /** The invariant of `fcfsScheduling`'s loop: the first `i` processes of
      the list have run, FCFS never touches `rt`, and the clock is the end
      of the last block. */
  predicate LoopState(sorted: seq<Process>, procs: seq<Process>, gantt: seq<Block>, i: nat, t: nat) {
    && SameJobs(procs, sorted)
    && (forall k :: 0 <= k < |procs| ==> procs[k].rt == procs[k].bt)
    && ScheduleInvariant(procs, gantt, i)
    && t == LastEnd(gantt)
  }

  lemma InitialState(sorted: seq<Process>)
    requires Admissible(sorted) && forall k :: 0 <= k < |sorted| ==> Fresh(sorted[k])
    ensures LoopState(sorted, sorted, [], 0, 0)
  {
    EmptyIsPartialSchedule(sorted);
  }

  /** One pass of the loop: process `i` runs from the later of the clock and
      its arrival for its whole burst and completes at the block's end. */
  lemma ServeStep(sorted: seq<Process>, procs: seq<Process>, gantt: seq<Block>, i: nat, startTime: nat, endTime: nat,
                  procs': seq<Process>, gantt': seq<Block>)
    requires Admissible(sorted) && ArrivalOrdered(sorted)
    requires LoopState(sorted, procs, gantt, i, LastEnd(gantt)) && i < |procs|
    requires startTime == Max(LastEnd(gantt), procs[i].at) && endTime == startTime + procs[i].bt
    requires procs' == procs[i := Complete(procs[i], endTime)] && gantt' == gantt + [Block(procs[i].pid, startTime, endTime)]
    ensures LoopState(sorted, procs', gantt', i + 1, endTime)
  {
    SameJobsKeep(procs, sorted);
    ScheduleStep(procs, gantt, i, startTime, endTime);
    SameJobsUpdate(procs, sorted, i, Complete(procs[i], endTime));
    forall k | 0 <= k < |procs'| ensures procs'[k].rt == procs'[k].bt {
      if k != i { assert procs'[k] == procs[k]; }
    }
  }

  /** The loop of `fcfsScheduling` over the arrival-ordered clones: each
      process in turn runs for its whole burst from the later of the CPU's
      free time and its arrival. */
  method ServeInOrder(sorted: seq<Process>) returns (gantt: seq<Block>, procs: seq<Process>)
    requires Admissible(sorted) && ArrivalOrdered(sorted)
    requires forall k :: 0 <= k < |sorted| ==> Fresh(sorted[k])
    ensures SameJobs(procs, sorted) && ArrivalOrdered(procs)
    ensures forall k :: 0 <= k < |procs| ==> procs[k].rt == procs[k].bt
    ensures |gantt| == |procs| && RunsInListOrder(gantt, procs, |procs|)
    ensures ValidSchedule(gantt, procs) && NeverIdleWhenReady(gantt, procs)
  {
    procs := sorted;
    var currentTime: nat := 0;
    gantt := [];
    InitialState(sorted);
    var i := 0;
    while i < |procs|
      invariant LoopState(sorted, procs, gantt, i, currentTime)
    {
      var p := procs[i];
      if currentTime < p.at {
        currentTime := p.at;
      }
      var startTime := currentTime;
      currentTime := currentTime + p.bt;
      var procs', gantt' := procs[i := Complete(p, currentTime)], gantt + [Block(p.pid, startTime, currentTime)];
      ServeStep(sorted, procs, gantt, i, startTime, currentTime, procs', gantt');
      procs, gantt := procs', gantt';
      i := i + 1;
    }
    AllRun(sorted, procs, gantt);
  }

  /** `fcfsScheduling`: the Gantt blocks and the clones with their metrics
      (the list handed to `updateResults`). FCFS never touches `rt`. */
  method Fcfs(processes: seq<Process>) returns (gantt: seq<Block>, procs: seq<Process>)
    requires Admissible(processes)
    ensures SameJobs(procs, SortByArrival(Clones(processes)))
    ensures ArrivalOrdered(procs)
    ensures forall k :: 0 <= k < |procs| ==> procs[k].rt == procs[k].bt
    ensures |gantt| == |procs|
    ensures RunsInListOrder(gantt, procs, |procs|)
    ensures ValidSchedule(gantt, procs) && NeverIdleWhenReady(gantt, procs)
  {
    var sorted := SortByArrival(Clones(processes));
    PreparedWorkingList(processes);
    gantt, procs := ServeInOrder(sorted);
  }
}
