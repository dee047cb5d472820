/** Timeline: the Gantt blocks a scheduler emits, and what it means for a
    sequence of blocks, together with the processes' metrics, to be a correct
    single-CPU schedule. */
module Timeline {
  import opened Processes

  /** One Gantt block `{pid, startTime, endTime}`: process `pid` holds the
      CPU during [startTime, endTime). */
  datatype Block = Block(pid: Pid, startTime: nat, endTime: nat)

  function Max(a: int, b: int): int {
    if a >= b then a else b
  }

  function Min(a: int, b: int): int {
    if a <= b then a else b
  }

  function Length(b: Block): nat {
    if b.endTime >= b.startTime then b.endTime - b.startTime else 0
  }

  /** The CPU time the blocks of `g` give process `pid`. */
  function Work(g: seq<Block>, pid: Pid): nat {
    if g == [] then 0 else (if g[0].pid == pid then Length(g[0]) else 0) + Work(g[1..], pid)
  }

  /** The latest end of a block of `pid` in `g` (0 when it has none). */
  function Finish(g: seq<Block>, pid: Pid): nat {
    if g == [] then 0 else Max(if g[0].pid == pid then g[0].endTime else 0, Finish(g[1..], pid))
  }

  function LastEnd(g: seq<Block>): nat {
    if g == [] then 0 else g[|g| - 1].endTime
  }

  /** One CPU: every block is non-empty, and blocks follow each other in
      time without overlapping. */
  predicate Sequential(g: seq<Block>) {
    && (forall i :: 0 <= i < |g| ==> g[i].startTime < g[i].endTime)
    && (forall i, j :: 0 <= i < j < |g| ==> g[i].endTime <= g[j].startTime)
  }

  /** Every block belongs to one of the processes. */
  predicate RunsOnlyKnown(g: seq<Block>, ps: seq<Process>) {
    forall i :: 0 <= i < |g| ==> g[i].pid in Pids(ps)
  }

  /** No process runs before it arrives. */
  predicate RespectsArrival(g: seq<Block>, ps: seq<Process>) {
    forall i, k :: 0 <= i < |g| && 0 <= k < |ps| && g[i].pid == ps[k].pid ==> ps[k].at <= g[i].startTime
  }

  /** Process `p` received exactly its burst, its completion time is the end
      of its last block, and its turnaround and waiting times follow. */
  predicate Accounted(g: seq<Block>, p: Process) {
    Work(g, p.pid) == p.bt && p.ct == Finish(g, p.pid) && MetricsConsistent(p)
  }

  /** A correct schedule of the processes `ps` with their metrics. */
  predicate ValidSchedule(g: seq<Block>, ps: seq<Process>) {
    && Sequential(g)
    && RunsOnlyKnown(g, ps)
    && RespectsArrival(g, ps)
    && forall k :: 0 <= k < |ps| ==> Accounted(g, ps[k])
  }

  /** The CPU starts with the first arrival: nobody waits before the first
      block. */
  predicate StartsAtFirstArrival(g: seq<Block>, ps: seq<Process>) {
    |g| > 0 ==> forall k :: 0 <= k < |ps| ==> g[0].startTime <= ps[k].at
  }

  /** The CPU idles between two blocks only when every process that arrived
      before the next block had already completed when the idling began. */
  predicate IdleOnlyWhenDone(g: seq<Block>, ps: seq<Process>) {
    forall i, k :: 0 <= i < |g| - 1 && 0 <= k < |ps| && g[i].endTime < g[i + 1].startTime && ps[k].at < g[i + 1].startTime
      ==> ps[k].ct <= g[i].endTime
  }

  predicate NeverIdleWhenReady(g: seq<Block>, ps: seq<Process>) {
    StartsAtFirstArrival(g, ps) && IdleOnlyWhenDone(g, ps)
  }

  // ---------------------------------------------------------------------
  // Facts about appending a block, used by every scheduler's loop.

  lemma {:induction false} WorkAppend(g: seq<Block>, b: Block, pid: Pid)
    ensures Work(g + [b], pid) == Work(g, pid) + (if b.pid == pid then Length(b) else 0)
    decreases |g|
  {
    if g == [] {
      assert [b][1..] == [];
    } else {
      assert (g + [b])[1..] == g[1..] + [b];
      WorkAppend(g[1..], b, pid);
    }
  }

  lemma {:induction false} FinishAppend(g: seq<Block>, b: Block, pid: Pid)
    ensures Finish(g + [b], pid) == Max(Finish(g, pid), if b.pid == pid then b.endTime else 0)
    decreases |g|
  {
    if g == [] {
      assert [b][1..] == [];
    } else {
      assert (g + [b])[1..] == g[1..] + [b];
      FinishAppend(g[1..], b, pid);
    }
  }

  lemma AppendSequential(g: seq<Block>, b: Block)
    requires Sequential(g)
    requires b.startTime < b.endTime && LastEnd(g) <= b.startTime
    ensures Sequential(g + [b])
  {
    var o := g + [b];
    forall i, j | 0 <= i < j < |o| ensures o[i].endTime <= o[j].startTime {
      if j == |g| && i < |g| - 1 {
        assert g[i].endTime <= g[|g| - 1].startTime;
      }
    }
  }

  lemma {:induction false} FinishWithinTimeline(g: seq<Block>, pid: Pid)
    requires Sequential(g)
    ensures Finish(g, pid) <= LastEnd(g)
    decreases |g|
  {
    if |g| > 1 {
      assert Sequential(g[1..]) by {
        var r := g[1..];
        forall i, j | 0 <= i < j < |r| ensures r[i].endTime <= r[j].startTime {
          assert r[i] == g[i + 1] && r[j] == g[j + 1];
        }
      }
      FinishWithinTimeline(g[1..], pid);
      assert g[0].endTime <= g[|g| - 1].startTime;
    }
  }

  /** Work done by `pid` inside a timeline that never runs it before `a` fits
      between `a` and its last block's end. */
  lemma {:induction false} WorkWithinWindow(g: seq<Block>, pid: Pid, a: nat)
    requires Sequential(g)
    requires forall i :: 0 <= i < |g| && g[i].pid == pid ==> a <= g[i].startTime
    ensures Work(g, pid) <= Max(0, Finish(g, pid) - a)
    decreases |g|
  {
    if g != [] {
      var r := g[1..];
      assert Sequential(r) by {
        forall i, j | 0 <= i < j < |r| ensures r[i].endTime <= r[j].startTime {
          assert r[i] == g[i + 1] && r[j] == g[j + 1];
        }
      }
      if g[0].pid == pid {
        forall i | 0 <= i < |r| && r[i].pid == pid ensures g[0].endTime <= r[i].startTime {
          assert r[i] == g[i + 1];
        }
        WorkWithinWindow(r, pid, g[0].endTime);
      } else {
        forall i | 0 <= i < |r| && r[i].pid == pid ensures a <= r[i].startTime {
          assert r[i] == g[i + 1];
        }
        WorkWithinWindow(r, pid, a);
      }
    }
  }

  /** In every correct schedule each process completes no earlier than its
      arrival plus its burst, so turnaround is at least the burst and no
      waiting time is negative. */
  lemma WaitingTimeNonNegative(g: seq<Block>, ps: seq<Process>)
    requires ValidSchedule(g, ps) && PositiveBursts(ps)
    ensures forall k :: 0 <= k < |ps| ==> ps[k].ct >= ps[k].at + ps[k].bt && ps[k].tat >= ps[k].bt && ps[k].wt >= 0
  {
    forall k | 0 <= k < |ps| ensures ps[k].ct >= ps[k].at + ps[k].bt {
      WorkWithinWindow(g, ps[k].pid, ps[k].at);
    }
  }

  // ---------------------------------------------------------------------
  // A schedule under construction. Every policy builds its timeline block
  // by block; `PartialSchedule` is what holds after each block, and a
  // partial schedule in which every process has received its burst is a
  // correct schedule.

  /** Process `p` has received its whole burst in `g`. */
  predicate Done(g: seq<Block>, p: Process) {
    Work(g, p.pid) == p.bt
  }

  /** Every idle gap between two blocks began only after every process that
      arrived before the gap's end had completed. */
  predicate GapsClosed(g: seq<Block>, ps: seq<Process>) {
    forall i, k :: 0 <= i < |g| - 1 && 0 <= k < |ps| && g[i].endTime < g[i + 1].startTime && ps[k].at < g[i + 1].startTime
      ==> Done(g, ps[k]) && ps[k].ct <= g[i].endTime
  }

  predicate PartialSchedule(g: seq<Block>, ps: seq<Process>) {
    && Sequential(g)
    && RunsOnlyKnown(g, ps)
    && RespectsArrival(g, ps)
    && (forall k :: 0 <= k < |ps| ==> Work(g, ps[k].pid) <= ps[k].bt)
    && (forall k :: 0 <= k < |ps| && Done(g, ps[k]) ==> ps[k].ct == Finish(g, ps[k].pid) && MetricsConsistent(ps[k]))
    && StartsAtFirstArrival(g, ps)
    && GapsClosed(g, ps)
  }

  /** A block may start at `s`: on an empty timeline nobody arrived before
      `s`; after an idle gap everybody who arrived before `s` is done. */
  predicate MayStartAt(g: seq<Block>, ps: seq<Process>, s: nat) {
    && (|g| == 0 ==> forall k :: 0 <= k < |ps| ==> s <= ps[k].at)
    && (|g| > 0 && LastEnd(g) < s ==> forall k :: 0 <= k < |ps| && ps[k].at < s ==> Done(g, ps[k]))
  }

  lemma EmptyIsPartialSchedule(ps: seq<Process>)
    requires PositiveBursts(ps)
    ensures PartialSchedule([], ps)
  {
  }

  lemma UpdateKeepsJobFacts(g: seq<Block>, ps: seq<Process>, idx: nat, q: Process)
    requires idx < |ps| && SameJob(q, ps[idx])
    ensures RunsOnlyKnown(g, ps) ==> RunsOnlyKnown(g, ps[idx := q])
    ensures RespectsArrival(g, ps) ==> RespectsArrival(g, ps[idx := q])
    ensures StartsAtFirstArrival(g, ps) ==> StartsAtFirstArrival(g, ps[idx := q])
  {
    assert SameJobs(ps[idx := q], ps);
    SameJobsKeep(ps[idx := q], ps);
  }

  lemma AppendRespectsArrival(g: seq<Block>, ps: seq<Process>, b: Block, idx: nat)
    requires RespectsArrival(g, ps) && RunsOnlyKnown(g, ps) && UniquePids(ps)
    requires idx < |ps| && b.pid == ps[idx].pid && ps[idx].at <= b.startTime
    ensures RespectsArrival(g + [b], ps) && RunsOnlyKnown(g + [b], ps)
  {
    var o := g + [b];
    forall i, k | 0 <= i < |o| && 0 <= k < |ps| && o[i].pid == ps[k].pid ensures ps[k].at <= o[i].startTime {
      if i == |g| { assert k == idx; } else { assert o[i] == g[i]; }
    }
    assert ps[idx] in ps;
  }

  lemma AppendGapsClosed(g: seq<Block>, ps: seq<Process>, b: Block, idx: nat, q: Process)
    requires Sequential(g) && GapsClosed(g, ps)
    requires forall k :: 0 <= k < |ps| && Done(g, ps[k]) ==> ps[k].ct == Finish(g, ps[k].pid)
    requires idx < |ps| && SameJob(q, ps[idx]) && !Done(g, ps[idx])
    requires LastEnd(g) <= b.startTime && MayStartAt(g, ps, b.startTime)
    requires forall k :: 0 <= k < |ps| && k != idx ==> Work(g + [b], ps[k].pid) == Work(g, ps[k].pid)
    ensures GapsClosed(g + [b], ps[idx := q])
  {
    var o, ps' := g + [b], ps[idx := q];
    forall i, k | 0 <= i < |o| - 1 && 0 <= k < |ps'| && o[i].endTime < o[i + 1].startTime && ps'[k].at < o[i + 1].startTime
      ensures Done(o, ps'[k]) && ps'[k].ct <= o[i].endTime
    {
      if i == |g| - 1 {
        assert o[i] == g[|g| - 1] && o[i + 1] == b;
        LastGapClosed(g, ps, b, idx, k);
      } else {
        assert o[i] == g[i] && o[i + 1] == g[i + 1];
        OldGapClosed(g, ps, b, idx, i, k);
      }
      assert ps'[k] == ps[k];
    }
  }

  /** A gap before the new block: everybody who arrived before it is done. */
  lemma LastGapClosed(g: seq<Block>, ps: seq<Process>, b: Block, idx: nat, k: nat)
    requires Sequential(g) && |g| > 0 && LastEnd(g) < b.startTime && MayStartAt(g, ps, b.startTime)
    requires idx < |ps| && !Done(g, ps[idx]) && k < |ps| && ps[k].at < b.startTime
    requires Done(g, ps[k]) ==> ps[k].ct == Finish(g, ps[k].pid)
    requires k != idx ==> Work(g + [b], ps[k].pid) == Work(g, ps[k].pid)
    ensures k != idx && Done(g + [b], ps[k]) && ps[k].ct <= g[|g| - 1].endTime
  {
    assert Done(g, ps[k]);
    FinishWithinTimeline(g, ps[k].pid);
  }

  /** A gap already in the timeline stays closed. */
  lemma OldGapClosed(g: seq<Block>, ps: seq<Process>, b: Block, idx: nat, i: nat, k: nat)
    requires GapsClosed(g, ps) && i < |g| - 1 && k < |ps|
    requires g[i].endTime < g[i + 1].startTime && ps[k].at < g[i + 1].startTime
    requires idx < |ps| && !Done(g, ps[idx])
    requires k != idx ==> Work(g + [b], ps[k].pid) == Work(g, ps[k].pid)
    ensures k != idx && Done(g + [b], ps[k]) && ps[k].ct <= g[i].endTime
  {
    assert Done(g, ps[k]) && ps[k].ct <= g[i].endTime;
  }

  lemma AppendWork(g: seq<Block>, ps: seq<Process>, b: Block, idx: nat)
    requires UniquePids(ps) && idx < |ps| && b.pid == ps[idx].pid
    ensures forall k :: 0 <= k < |ps| ==> Work(g + [b], ps[k].pid) == Work(g, ps[k].pid) + (if k == idx then Length(b) else 0)
    ensures forall k :: 0 <= k < |ps| ==> Finish(g + [b], ps[k].pid) == if k == idx then Max(Finish(g, ps[k].pid), b.endTime) else Finish(g, ps[k].pid)
  {
    forall k | 0 <= k < |ps|
      ensures Work(g + [b], ps[k].pid) == Work(g, ps[k].pid) + (if k == idx then Length(b) else 0)
      ensures Finish(g + [b], ps[k].pid) == if k == idx then Max(Finish(g, ps[k].pid), b.endTime) else Finish(g, ps[k].pid)
    {
      WorkAppend(g, b, ps[k].pid);
      FinishAppend(g, b, ps[k].pid);
    }
  }

  lemma AppendAccounted(g: seq<Block>, ps: seq<Process>, b: Block, idx: nat, q: Process, ps': seq<Process>)
    requires PartialSchedule(g, ps) && UniquePids(ps)
    requires idx < |ps| && b.pid == ps[idx].pid && SameJob(q, ps[idx])
    requires b.startTime < b.endTime && LastEnd(g) <= b.startTime
    requires Work(g, ps[idx].pid) + Length(b) <= ps[idx].bt
    requires Work(g, ps[idx].pid) + Length(b) == ps[idx].bt ==> q.ct == b.endTime && MetricsConsistent(q)
    requires ps' == ps[idx := q]
    ensures forall k :: 0 <= k < |ps'| ==> Work(g + [b], ps'[k].pid) <= ps'[k].bt
    ensures forall k :: 0 <= k < |ps'| && Done(g + [b], ps'[k]) ==>
      ps'[k].ct == Finish(g + [b], ps'[k].pid) && MetricsConsistent(ps'[k])
  {
    var o := g + [b];
    AppendWork(g, ps, b, idx);
    FinishWithinTimeline(g, ps[idx].pid);
    forall k | 0 <= k < |ps| && Done(o, ps'[k])
      ensures ps'[k].ct == Finish(o, ps'[k].pid) && MetricsConsistent(ps'[k])
    {
      if k != idx { assert Done(g, ps[k]); }
    }
  }

  /** Appending a block in which process `idx` runs, and replacing its record
      by `q`, keeps a partial schedule: the block's time goes to `idx` and to
      no one else; if it completes `idx`, `q` must carry the block's end as
      its completion time. */
  lemma RunStep(g: seq<Block>, ps: seq<Process>, b: Block, idx: nat, q: Process)
    requires PartialSchedule(g, ps) && UniquePids(ps)
    requires idx < |ps| && b.pid == ps[idx].pid && SameJob(q, ps[idx])
    requires b.startTime < b.endTime && LastEnd(g) <= b.startTime && ps[idx].at <= b.startTime
    requires Work(g, ps[idx].pid) + Length(b) <= ps[idx].bt
    requires Work(g, ps[idx].pid) + Length(b) == ps[idx].bt ==> q.ct == b.endTime && MetricsConsistent(q)
    requires MayStartAt(g, ps, b.startTime)
    ensures PartialSchedule(g + [b], ps[idx := q])
    ensures forall k :: 0 <= k < |ps| ==> Work(g + [b], ps[k].pid) == Work(g, ps[k].pid) + (if k == idx then Length(b) else 0)
    ensures LastEnd(g + [b]) == b.endTime
  {
    var o, ps' := g + [b], ps[idx := q];
    AppendWork(g, ps, b, idx);
    AppendSequential(g, b);
    AppendRespectsArrival(g, ps, b, idx);
    UpdateKeepsJobFacts(o, ps, idx, q);
    AppendGapsClosed(g, ps, b, idx, q);
    AppendAccounted(g, ps, b, idx, q, ps');
    assert StartsAtFirstArrival(o, ps) by {
      if |g| > 0 { assert o[0] == g[0]; }
    }
  }

  /** The blocks of a schedule in which every process is done form a correct
      schedule in which the CPU never idles while a process is ready. */
  lemma CompletedSchedule(g: seq<Block>, ps: seq<Process>)
    requires PartialSchedule(g, ps)
    requires forall k :: 0 <= k < |ps| ==> Done(g, ps[k])
    ensures ValidSchedule(g, ps) && NeverIdleWhenReady(g, ps)
  {
  }
}
