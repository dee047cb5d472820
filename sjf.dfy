/** Shortest Job First, non-preemptive: at every decision the arrived,
    unfinished process with the shortest burst runs to completion; when
    nobody is ready the clock jumps to the next arrival. */
module Sjf {
  import opened Processes
  import opened Timeline

  /** Under SJF job `j` goes before job `k`: a shorter burst, or an equal
      burst and an earlier place in the arrival-ordered list. */
  predicate ShorterJob(ps: seq<Process>, j: nat, k: nat)
    requires j < |ps| && k < |ps|
  {
    ps[j].bt < ps[k].bt || (ps[j].bt == ps[k].bt && j <= k)
  }

  /** The moment a finished process was started. */
  function StartOf(p: Process): int {
    p.ct - p.bt
  }

  /** The selection loop of `sjfScheduling`: the first ready process with the
      shortest burst, or `None` (the source's `-1`) when nobody is ready. */
  method ShortestBurst(procs: seq<Process>, t: nat) returns (pick: Option<nat>)
    ensures pick.None? <==> forall k :: 0 <= k < |procs| ==> !Ready(procs[k], t)
    ensures pick.Some? ==> pick.value < |procs| && Ready(procs[pick.value], t)
    ensures pick.Some? ==> forall k :: 0 <= k < |procs| && Ready(procs[k], t) ==> ShorterJob(procs, pick.value, k)
  {
    pick := None;
    var i := 0;
    while i < |procs|
      invariant i <= |procs|
      invariant pick.None? <==> forall k :: 0 <= k < i ==> !Ready(procs[k], t)
      invariant pick.Some? ==> pick.value < i && Ready(procs[pick.value], t)
      invariant pick.Some? ==> forall k :: 0 <= k < i && Ready(procs[k], t) ==> ShorterJob(procs, pick.value, k)
    {
      if Ready(procs[i], t) && (pick.None? || procs[i].bt < procs[pick.value].bt) {
        pick := Some(i);
      }
      i := i + 1;
    }
  }

  /** The SJF rule on a finished run: whenever `j` started at a moment when
      `k` had arrived and had not started yet, `j` was the shorter job. */
  predicate ShortestJobFirst(ps: seq<Process>) {
    forall j, k :: 0 <= j < |ps| && 0 <= k < |ps| && ps[k].at <= StartOf(ps[j]) < StartOf(ps[k]) ==> ShorterJob(ps, j, k)
  }

  /** The SJF rule while the loop runs: it holds for every finished `j`
      against every `k` that had arrived when `j` started and was still
      waiting then (it is unfinished now, or it started later). */
  predicate RuleSoFar(ps: seq<Process>) {
    forall j, k ::
      (0 <= j < |ps| && 0 <= k < |ps| && ps[j].rt == 0 && ps[k].at <= StartOf(ps[j]) &&
       (ps[k].rt > 0 || StartOf(ps[j]) < StartOf(ps[k]))) ==> ShorterJob(ps, j, k)
  }

  /** Block `b` is the whole, uninterrupted run of process `p`. */
  predicate RunsWhole(b: Block, p: Process) {
    b.pid == p.pid && b.startTime == StartOf(p) && b.endTime == p.ct
  }

  /** Block `b` is the whole run of one of the finished processes. */
  predicate RunOfFinished(b: Block, ps: seq<Process>) {
    exists k :: 0 <= k < |ps| && ps[k].rt == 0 && RunsWhole(b, ps[k])
  }

  /** Every block is the whole run of a finished process. */
  predicate WholeRuns(gantt: seq<Block>, ps: seq<Process>) {
    forall i :: 0 <= i < |gantt| ==> RunOfFinished(gantt[i], ps)
  }

  /** The state of `sjfScheduling`'s loop at clock `t` after `completed`
      processes have run: a partial schedule in which a process has either
      not started (all of its burst remains) or run to completion. */
  predicate Progress(procs: seq<Process>, gantt: seq<Block>, t: nat, completed: nat) {
    && completed == CountFinished(procs) && |gantt| == completed
    && PartialSchedule(gantt, procs)
    && (forall k :: 0 <= k < |procs| ==> procs[k].rt + Work(gantt, procs[k].pid) == procs[k].bt)
    && (forall k :: 0 <= k < |procs| ==> procs[k].rt == 0 || procs[k].rt == procs[k].bt)
    && (forall k :: 0 <= k < |procs| && procs[k].rt == 0 ==> procs[k].ct <= t)
    && LastEnd(gantt) <= t
    && (|gantt| == 0 ==> forall k :: 0 <= k < |procs| ==> t <= procs[k].at)
    && (LastEnd(gantt) < t ==> forall k :: 0 <= k < |procs| && procs[k].at < t ==> procs[k].rt == 0)
  }

  /** What `sjfScheduling` does to the picked process: it completes at `t`. */
  function Finished(p: Process, t: nat): (q: Process)
    ensures SameJob(q, p) && q.rt == 0 && q.ct == t && MetricsConsistent(q)
  {
    Complete(p, t).(rt := 0)
  }

  /** Running the picked process for its whole burst extends the partial
      schedule and gives it, and nobody else, its burst. */
  lemma RunExtendsSchedule(procs: seq<Process>, gantt: seq<Block>, t: nat, idx: nat, t': nat, procs': seq<Process>, gantt': seq<Block>)
    requires PartialSchedule(gantt, procs) && Admissible(procs) && LastEnd(gantt) <= t
    requires forall k :: 0 <= k < |procs| ==> procs[k].rt + Work(gantt, procs[k].pid) == procs[k].bt
    requires forall k :: 0 <= k < |procs| ==> procs[k].rt == 0 || procs[k].rt == procs[k].bt
    requires |gantt| == 0 ==> forall k :: 0 <= k < |procs| ==> t <= procs[k].at
    requires LastEnd(gantt) < t ==> forall k :: 0 <= k < |procs| && procs[k].at < t ==> procs[k].rt == 0
    requires idx < |procs| && Ready(procs[idx], t) && t' == t + procs[idx].bt
    requires procs' == procs[idx := Finished(procs[idx], t')] && gantt' == gantt + [Block(procs[idx].pid, t, t')]
    ensures PartialSchedule(gantt', procs')
    ensures forall k :: 0 <= k < |procs| ==>
      Work(gantt', procs[k].pid) == Work(gantt, procs[k].pid) + (if k == idx then procs[idx].bt else 0)
  {
    var p := procs[idx];
    assert Work(gantt, p.pid) == 0;
    assert MayStartAt(gantt, procs, t) by {
      forall k | 0 <= k < |procs| && procs[k].at < t && LastEnd(gantt) < t ensures Done(gantt, procs[k]) {
        assert procs[k].rt == 0;
      }
    }
    RunStep(gantt, procs, Block(p.pid, t, t'), idx, Finished(p, t'));
  }

  /** After the run the picked process has finished and nobody else changed. */
  lemma RunKeepsRemaining(procs: seq<Process>, gantt: seq<Block>, gantt': seq<Block>, t: nat, idx: nat, t': nat, procs': seq<Process>)
    requires forall k :: 0 <= k < |procs| ==> procs[k].rt + Work(gantt, procs[k].pid) == procs[k].bt
    requires forall k :: 0 <= k < |procs| ==> procs[k].rt == 0 || procs[k].rt == procs[k].bt
    requires forall k :: 0 <= k < |procs| && procs[k].rt == 0 ==> procs[k].ct <= t
    requires idx < |procs| && Ready(procs[idx], t) && t' == t + procs[idx].bt
    requires forall k :: 0 <= k < |procs| ==>
      Work(gantt', procs[k].pid) == Work(gantt, procs[k].pid) + (if k == idx then procs[idx].bt else 0)
    requires procs' == procs[idx := Finished(procs[idx], t')]
    ensures forall k :: 0 <= k < |procs'| ==> procs'[k].rt + Work(gantt', procs'[k].pid) == procs'[k].bt
    ensures forall k :: 0 <= k < |procs'| ==> procs'[k].rt == 0 || procs'[k].rt == procs'[k].bt
    ensures forall k :: 0 <= k < |procs'| && procs'[k].rt == 0 ==> procs'[k].ct <= t'
  {
    forall k | 0 <= k < |procs'|
      ensures procs'[k].rt + Work(gantt', procs'[k].pid) == procs'[k].bt
      ensures procs'[k].rt == 0 || procs'[k].rt == procs'[k].bt
      ensures procs'[k].rt == 0 ==> procs'[k].ct <= t'
    {
      if k != idx { assert procs'[k] == procs[k]; }
    }
  }

  lemma RunKeepsProgress(procs: seq<Process>, gantt: seq<Block>, t: nat, completed: nat, idx: nat, t': nat,
                          procs': seq<Process>, gantt': seq<Block>)
    requires Progress(procs, gantt, t, completed) && Admissible(procs)
    requires idx < |procs| && Ready(procs[idx], t) && t' == t + procs[idx].bt
    requires procs' == procs[idx := Finished(procs[idx], t')] && gantt' == gantt + [Block(procs[idx].pid, t, t')]
    ensures Progress(procs', gantt', t', completed + 1)
  {
    RunExtendsSchedule(procs, gantt, t, idx, t', procs', gantt');
    RunKeepsRemaining(procs, gantt, gantt', t, idx, t', procs');
    CountFinishedUpdate(procs, idx, Finished(procs[idx], t'));
  }

  lemma RunKeepsWholeRuns(procs: seq<Process>, gantt: seq<Block>, t: nat, idx: nat, t': nat,
                           procs': seq<Process>, gantt': seq<Block>)
    requires WholeRuns(gantt, procs)
    requires idx < |procs| && Ready(procs[idx], t) && t' == t + procs[idx].bt
    requires procs' == procs[idx := Finished(procs[idx], t')] && gantt' == gantt + [Block(procs[idx].pid, t, t')]
    ensures WholeRuns(gantt', procs')
  {
    forall i | 0 <= i < |gantt'| ensures RunOfFinished(gantt'[i], procs') {
      if i < |gantt| {
        assert gantt'[i] == gantt[i];
        var k :| 0 <= k < |procs| && procs[k].rt == 0 && RunsWhole(gantt[i], procs[k]);
        assert k != idx && procs'[k] == procs[k];
        assert procs'[k].rt == 0 && RunsWhole(gantt'[i], procs'[k]);
      } else {
        assert procs'[idx].rt == 0 && RunsWhole(gantt'[i], procs'[idx]);
      }
    }
  }

  lemma RunKeepsRule(procs: seq<Process>, t: nat, idx: nat, t': nat, procs': seq<Process>)
    requires RuleSoFar(procs) && PositiveBursts(procs)
    requires forall k :: 0 <= k < |procs| && procs[k].rt == 0 ==> procs[k].ct <= t
    requires idx < |procs| && Ready(procs[idx], t)
    requires forall k :: 0 <= k < |procs| && Ready(procs[k], t) ==> ShorterJob(procs, idx, k)
    requires t' == t + procs[idx].bt && procs' == procs[idx := Finished(procs[idx], t')]
    ensures RuleSoFar(procs')
  {
    forall j, k | 0 <= j < |procs'| && 0 <= k < |procs'| && procs'[j].rt == 0 && procs'[k].at <= StartOf(procs'[j]) &&
      (procs'[k].rt > 0 || StartOf(procs'[j]) < StartOf(procs'[k]))
      ensures ShorterJob(procs', j, k)
    {
      assert StartOf(procs'[idx]) == t;
      if j == idx {
        if procs[k].rt == 0 { assert procs[k].bt > 0; }
        assert k != idx && procs'[k] == procs[k];
        assert ShorterJob(procs, j, k);
      } else if k == idx {
        assert procs'[j] == procs[j];
        assert ShorterJob(procs, j, k);
      } else {
        assert procs'[j] == procs[j] && procs'[k] == procs[k];
        assert ShorterJob(procs, j, k);
      }
    }
  }

  lemma JumpKeepsProgress(procs: seq<Process>, gantt: seq<Block>, t: nat, completed: nat, next: nat)
    requires Progress(procs, gantt, t, completed)
    requires forall k :: 0 <= k < |procs| ==> !Ready(procs[k], t)
    requires exists k :: 0 <= k < |procs| && procs[k].rt > 0 && procs[k].at == next
    requires forall k :: 0 <= k < |procs| && procs[k].rt > 0 ==> next <= procs[k].at
    ensures t < next && Progress(procs, gantt, next, completed) && AnyReady(procs, next)
  {
    var w :| 0 <= w < |procs| && procs[w].rt > 0 && procs[w].at == next;
    assert !Ready(procs[w], t) && Ready(procs[w], next);
    if |gantt| == 0 {
      forall k | 0 <= k < |procs| ensures procs[k].rt > 0 {
        CountFinishedAll(procs);
        if procs[k].rt == 0 { CountPositive(procs, k); }
      }
    }
  }

  /** A finished process counts. */
  lemma {:induction false} CountPositive(s: seq<Process>, k: nat)
    requires k < |s| && s[k].rt == 0
    ensures CountFinished(s) > 0
    decreases |s|
  {
    if k > 0 {
      assert s[1..][k - 1] == s[k];
      CountPositive(s[1..], k - 1);
    }
  }

  /** Once every process has finished, the loop's state is a correct
      schedule obeying the SJF rule. */
  lemma AllRun(procs: seq<Process>, gantt: seq<Block>, t: nat)
    requires Progress(procs, gantt, t, |procs|) && RuleSoFar(procs)
    ensures AllFinished(procs) && |gantt| == |procs|
    ensures ValidSchedule(gantt, procs) && NeverIdleWhenReady(gantt, procs)
    ensures ShortestJobFirst(procs)
  {
    CountFinishedAll(procs);
    CompletedSchedule(gantt, procs);
  }

  /** The invariant of `sjfScheduling`'s loop. */
  predicate LoopState(sorted: seq<Process>, procs: seq<Process>, gantt: seq<Block>, t: nat, completed: nat) {
    && SameJobs(procs, sorted) && completed <= |procs|
    && Progress(procs, gantt, t, completed)
    && RuleSoFar(procs)
    && WholeRuns(gantt, procs)
  }

  /** One pass of the loop that runs the picked process to completion. */
  lemma RunBranch(sorted: seq<Process>, procs: seq<Process>, gantt: seq<Block>, t: nat, completed: nat, idx: nat, t': nat,
                  procs': seq<Process>, gantt': seq<Block>)
    requires LoopState(sorted, procs, gantt, t, completed) && Admissible(sorted)
    requires idx < |procs| && Ready(procs[idx], t) && t' == t + procs[idx].bt
    requires forall k :: 0 <= k < |procs| && Ready(procs[k], t) ==> ShorterJob(procs, idx, k)
    requires procs' == procs[idx := Finished(procs[idx], t')] && gantt' == gantt + [Block(procs[idx].pid, t, t')]
    ensures LoopState(sorted, procs', gantt', t', completed + 1)
  {
    SameJobsKeep(procs, sorted);
    assert Progress(procs', gantt', t', completed + 1) by {
      RunKeepsProgress(procs, gantt, t, completed, idx, t', procs', gantt');
    }
    CountFinishedAll(procs');
    SameJobsUpdate(procs, sorted, idx, Finished(procs[idx], t'));
    assert WholeRuns(gantt', procs') by {
      RunKeepsWholeRuns(procs, gantt, t, idx, t', procs', gantt');
    }
    assert RuleSoFar(procs') by {
      RunKeepsRule(procs, t, idx, t', procs');
    }
  }

  /** One pass of the loop in which nobody is ready: the clock jumps. */
  lemma JumpBranch(sorted: seq<Process>, procs: seq<Process>, gantt: seq<Block>, t: nat, completed: nat, next: Option<nat>)
    requires LoopState(sorted, procs, gantt, t, completed) && completed < |procs|
    requires forall k :: 0 <= k < |procs| ==> !Ready(procs[k], t)
    requires next.None? <==> forall k :: 0 <= k < |procs| ==> procs[k].rt == 0
    requires next.Some? ==> exists k :: 0 <= k < |procs| && procs[k].rt > 0 && procs[k].at == next.value
    requires next.Some? ==> forall k :: 0 <= k < |procs| && procs[k].rt > 0 ==> next.value <= procs[k].at
    ensures next.Some? && t < next.value && AnyReady(procs, next.value)
    ensures LoopState(sorted, procs, gantt, next.value, completed)
  {
    CountFinishedAll(procs);
    JumpKeepsProgress(procs, gantt, t, completed, next.value);
  }

  /** One pass of `sjfScheduling`'s loop: pick the ready process with the
      shortest burst and run it to completion, or jump to the next arrival
      when nobody is ready. */
  method Decide(ghost sorted: seq<Process>, procs: seq<Process>, gantt: seq<Block>, t: nat, completed: nat)
    returns (procs': seq<Process>, gantt': seq<Block>, t': nat, completed': nat)
    requires Admissible(sorted) && LoopState(sorted, procs, gantt, t, completed) && completed < |procs|
    ensures |procs'| == |procs| && LoopState(sorted, procs', gantt', t', completed')
    ensures AnyReady(procs, t) ==> completed' == completed + 1
    ensures !AnyReady(procs, t) ==> procs' == procs && gantt' == gantt && completed' == completed && AnyReady(procs, t')
    ensures !AnyReady(procs, t) ==> forall k :: 0 <= k < |procs| && procs[k].rt > 0 ==> t' <= procs[k].at
  {
    var pick := ShortestBurst(procs, t);
    if pick.None? {
      var next := EarliestPendingArrival(procs);
      JumpBranch(sorted, procs, gantt, t, completed, next);
      procs', gantt', t', completed' := procs, gantt, next.value, completed;
    } else {
      var idx := pick.value;
      var p := procs[idx];
      t' := t + p.bt;
      procs', gantt' := procs[idx := Finished(p, t')], gantt + [Block(p.pid, t, t')];
      RunBranch(sorted, procs, gantt, t, completed, idx, t', procs', gantt');
      completed' := completed + 1;
    }
  }

  lemma InitialState(sorted: seq<Process>)
    requires Admissible(sorted) && forall k :: 0 <= k < |sorted| ==> Fresh(sorted[k])
    ensures LoopState(sorted, sorted, [], 0, 0)
  {
    EmptyIsPartialSchedule(sorted);
    CountNoneFinished(sorted);
  }

  /** The loop of `sjfScheduling` over the arrival-ordered clones. */
  method ShortestFirst(sorted: seq<Process>) returns (gantt: seq<Block>, procs: seq<Process>)
    requires Admissible(sorted) && forall k :: 0 <= k < |sorted| ==> Fresh(sorted[k])
    ensures SameJobs(procs, sorted) && AllFinished(procs) && |gantt| == |procs|
    ensures ValidSchedule(gantt, procs) && NeverIdleWhenReady(gantt, procs)
    ensures ShortestJobFirst(procs) && WholeRuns(gantt, procs)
  {
    procs := sorted;
    var currentTime: nat := 0;
    gantt := [];
    var completed := 0;
    var n := |procs|;
    InitialState(sorted);
    while completed < n
      invariant |procs| == n && LoopState(sorted, procs, gantt, currentTime, completed)
      decreases n - completed, if AnyReady(procs, currentTime) then 0 else 1
    {
      procs, gantt, currentTime, completed := Decide(sorted, procs, gantt, currentTime, completed);
    }
    AllRun(procs, gantt, currentTime);
  }

  /** `sjfScheduling`: the Gantt blocks and the finished clones. */
  method Sjf(processes: seq<Process>) returns (gantt: seq<Block>, procs: seq<Process>)
    requires Admissible(processes)
    ensures SameJobs(procs, SortByArrival(Clones(processes)))
    ensures AllFinished(procs) && |gantt| == |procs|
    ensures ValidSchedule(gantt, procs) && NeverIdleWhenReady(gantt, procs)
    ensures ShortestJobFirst(procs) && WholeRuns(gantt, procs)
  {
    var sorted := SortByArrival(Clones(processes));
    PreparedWorkingList(processes);
    gantt, procs := ShortestFirst(sorted);
  }
}
