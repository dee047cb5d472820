/** `mergeAdjacentBlocks`: neighbouring Gantt blocks of the same process are
    joined into one block running from the first one's start to the second
    one's end. */
module BlockMerge {
  import opened Processes
  import opened Timeline

  /** The block the source builds when it stretches `a` to the end of `b`. */
  function Join(a: Block, b: Block): Block {
    Block(a.pid, a.startTime, b.endTime)
  }

  /** The merged timeline, defined by recursion on the input. */
  function Merge(g: seq<Block>): seq<Block>
    decreases |g|
  {
    if |g| <= 1 then g
    else if g[0].pid == g[1].pid then Merge([Join(g[0], g[1])] + g[2..])
    else [g[0]] + Merge(g[1..])
  }

  /** No two neighbouring blocks belong to the same process. */
  predicate Separated(g: seq<Block>) {
    forall i :: 0 <= i < |g| - 1 ==> g[i].pid != g[i + 1].pid
  }

  /** Neighbouring blocks of the same process touch: one ends where the
      next begins. Every scheduler here emits only such timelines. */
  predicate SamePidContiguous(g: seq<Block>) {
    forall i :: 0 <= i < |g| - 1 && g[i].pid == g[i + 1].pid ==> g[i].endTime == g[i + 1].startTime
  }

  predicate Mergeable(g: seq<Block>) {
    Sequential(g) && SamePidContiguous(g)
  }

  /** The loop of `mergeAdjacentBlocks`: `current` is the block being grown,
      `merged` the finished ones. */
  method MergeAdjacentBlocks(g: seq<Block>) returns (merged: seq<Block>)
    ensures merged == Merge(g)
  {
    if |g| <= 1 {
      return g;
    }
    merged := [];
    var current := g[0];
    var i := 1;
    assert [current] + g[i..] == g;
    while i < |g|
      invariant 1 <= i <= |g|
      invariant merged + Merge([current] + g[i..]) == Merge(g)
    {
      var rest := [current] + g[i..];
      assert rest[1] == g[i] && rest[1..] == g[i..] && rest[2..] == g[i + 1..];
      if g[i].pid == current.pid {
        current := Block(current.pid, current.startTime, g[i].endTime);
      } else {
        assert g[i..] == [g[i]] + g[i + 1..];
        merged := merged + [current];
        current := g[i];
      }
      i := i + 1;
    }
    assert [current] + g[i..] == [current];
    merged := merged + [current];
  }

  // ---------------------------------------------------------------------
  // Shape of the merged timeline.

  /** The merged timeline is empty exactly when the input is, no longer than
      the input, and starts with the input's first process at its start. */
  lemma {:induction false} MergeHead(g: seq<Block>)
    ensures |Merge(g)| <= |g| && (|Merge(g)| == 0 <==> |g| == 0)
    ensures |g| > 0 ==> Merge(g)[0].pid == g[0].pid && Merge(g)[0].startTime == g[0].startTime
    ensures |g| > 0 ==> LastEnd(Merge(g)) == LastEnd(g)
    decreases |g|
  {
    if |g| > 1 {
      if g[0].pid == g[1].pid {
        var r := [Join(g[0], g[1])] + g[2..];
        MergeHead(r);
        assert LastEnd(r) == LastEnd(g);
      } else {
        MergeHead(g[1..]);
      }
    }
  }

  /** Merging leaves no two neighbouring blocks of the same process. */
  lemma {:induction false} MergeIsSeparated(g: seq<Block>)
    ensures Separated(Merge(g))
    decreases |g|
  {
    if |g| > 1 {
      if g[0].pid == g[1].pid {
        MergeIsSeparated([Join(g[0], g[1])] + g[2..]);
      } else {
        var m := Merge(g[1..]);
        MergeIsSeparated(g[1..]);
        MergeHead(g[1..]);
        var o := [g[0]] + m;
        forall i | 0 <= i < |o| - 1 ensures o[i].pid != o[i + 1].pid {
          if i > 0 { assert o[i] == m[i - 1] && o[i + 1] == m[i]; }
        }
      }
    }
  }

  /** A timeline without neighbouring blocks of one process is left as it is. */
  lemma {:induction false} MergeOfSeparated(g: seq<Block>)
    requires Separated(g)
    ensures Merge(g) == g
    decreases |g|
  {
    if |g| > 1 {
      assert g[0].pid != g[1].pid;
      MergeOfSeparated(g[1..]);
      assert [g[0]] + g[1..] == g;
    }
  }

  /** The last process of a timeline (`None` when it is empty). */
  function LastPid(g: seq<Block>): Option<Pid> {
    if g == [] then None else Some(g[|g| - 1].pid)
  }

  /** Merging is a left-to-right pass: one more block at the end either
      stretches the merged timeline's last block, when it belongs to the same
      process, or is appended to it. */
  lemma {:induction false} MergeSnoc(g: seq<Block>, b: Block)
    ensures var m := Merge(g);
      Merge(g + [b]) == if LastPid(m) == Some(b.pid) then m[..|m| - 1] + [Join(m[|m| - 1], b)] else m + [b]
    decreases |g|
  {
    var o := g + [b];
    if |g| == 1 {
      assert o == [g[0], b] && o[2..] == [];
    } else if |g| > 1 {
      assert o[0] == g[0] && o[1] == g[1];
      if g[0].pid == g[1].pid {
        var r := [Join(g[0], g[1])] + g[2..];
        assert [Join(o[0], o[1])] + o[2..] == r + [b];
        MergeSnoc(r, b);
      } else {
        assert o[1..] == g[1..] + [b];
        MergeSnoc(g[1..], b);
        MergeHead(g[1..]);
        var m1 := Merge(g[1..]);
        assert Merge(g) == [g[0]] + m1;
        if LastPid(m1) == Some(b.pid) {
          assert ([g[0]] + m1)[..|m1|] == [g[0]] + m1[..|m1| - 1];
        }
      }
    }
  }

  /** Merging twice is merging once. */
  lemma MergeIsIdempotent(g: seq<Block>)
    ensures Merge(Merge(g)) == Merge(g)
  {
    MergeIsSeparated(g);
    MergeOfSeparated(Merge(g));
  }

  /** Each merged block starts where a block of the same process in the
      input starts, and ends where one ends. */
  lemma {:induction false} MergeEndpoints(g: seq<Block>)
    ensures forall j :: 0 <= j < |Merge(g)| ==>
      exists i :: 0 <= i < |g| && g[i].pid == Merge(g)[j].pid && g[i].startTime == Merge(g)[j].startTime
    ensures forall j :: 0 <= j < |Merge(g)| ==>
      exists i :: 0 <= i < |g| && g[i].pid == Merge(g)[j].pid && g[i].endTime == Merge(g)[j].endTime
    decreases |g|
  {
    var m := Merge(g);
    if |g| > 1 {
      if g[0].pid == g[1].pid {
        var r := [Join(g[0], g[1])] + g[2..];
        MergeEndpoints(r);
        forall j | 0 <= j < |m|
          ensures exists i :: 0 <= i < |g| && g[i].pid == m[j].pid && g[i].startTime == m[j].startTime
          ensures exists i :: 0 <= i < |g| && g[i].pid == m[j].pid && g[i].endTime == m[j].endTime
        {
          var a :| 0 <= a < |r| && r[a].pid == m[j].pid && r[a].startTime == m[j].startTime;
          var b :| 0 <= b < |r| && r[b].pid == m[j].pid && r[b].endTime == m[j].endTime;
          if a == 0 { assert g[0].startTime == m[j].startTime; } else { assert r[a] == g[a + 1]; }
          if b == 0 { assert g[1].endTime == m[j].endTime; } else { assert r[b] == g[b + 1]; }
        }
      } else {
        var m1 := Merge(g[1..]);
        MergeEndpoints(g[1..]);
        forall j | 0 <= j < |m|
          ensures exists i :: 0 <= i < |g| && g[i].pid == m[j].pid && g[i].startTime == m[j].startTime
          ensures exists i :: 0 <= i < |g| && g[i].pid == m[j].pid && g[i].endTime == m[j].endTime
        {
          if j == 0 {
            assert m[0] == g[0];
          } else {
            assert m[j] == m1[j - 1];
            var a :| 0 <= a < |g[1..]| && g[1..][a].pid == m1[j - 1].pid && g[1..][a].startTime == m1[j - 1].startTime;
            var b :| 0 <= b < |g[1..]| && g[1..][b].pid == m1[j - 1].pid && g[1..][b].endTime == m1[j - 1].endTime;
            assert g[a + 1] == g[1..][a] && g[b + 1] == g[1..][b];
          }
        }
      }
    } else if |g| == 1 {
      assert m == g;
      assert g[0].pid == m[0].pid && g[0].startTime == m[0].startTime && g[0].endTime == m[0].endTime;
    }
  }

  /** Block `b` lies inside some block of `m` run by the same process. */
  predicate Covered(m: seq<Block>, b: Block) {
    exists j :: 0 <= j < |m| && m[j].pid == b.pid && m[j].startTime <= b.startTime && b.endTime <= m[j].endTime
  }

  /** Putting a block in front of both sides keeps every block covered. */
  lemma CoveredCons(b: Block, t: seq<Block>, m: seq<Block>)
    requires forall i :: 0 <= i < |t| ==> Covered(m, t[i])
    ensures forall i :: 0 <= i < |[b] + t| ==> Covered([b] + m, ([b] + t)[i])
  {
    forall i | 0 <= i < |[b] + t| ensures Covered([b] + m, ([b] + t)[i]) {
      if i == 0 {
        assert ([b] + m)[0] == b;
      } else {
        assert ([b] + t)[i] == t[i - 1] && Covered(m, t[i - 1]);
        var j :| 0 <= j < |m| && m[j].pid == t[i - 1].pid && m[j].startTime <= t[i - 1].startTime && t[i - 1].endTime <= m[j].endTime;
        assert ([b] + m)[j + 1] == m[j];
      }
    }
  }

  /** Two touching blocks of one process are covered by anything that covers
      their join. */
  lemma CoveredJoin(g: seq<Block>, m: seq<Block>)
    requires |g| > 1 && g[0].pid == g[1].pid
    requires g[0].startTime < g[0].endTime <= g[1].startTime < g[1].endTime
    requires forall i :: 0 <= i < |g| - 1 ==> Covered(m, ([Join(g[0], g[1])] + g[2..])[i])
    ensures forall i :: 0 <= i < |g| ==> Covered(m, g[i])
  {
    var r := [Join(g[0], g[1])] + g[2..];
    forall i | 0 <= i < |g| ensures Covered(m, g[i]) {
      if i <= 1 {
        assert Covered(m, r[0]);
        var j :| 0 <= j < |m| && m[j].pid == r[0].pid && m[j].startTime <= r[0].startTime && r[0].endTime <= m[j].endTime;
        assert m[j].startTime <= g[i].startTime && g[i].endTime <= m[j].endTime;
      } else {
        assert g[i] == r[i - 1] && Covered(m, r[i - 1]);
      }
    }
  }

  /** In a timeline whose same-process neighbours touch, every input block
      lies inside a merged block of the same process: each merged block
      spans its whole run. */
  lemma {:induction false} MergeCovers(g: seq<Block>)
    requires Mergeable(g)
    ensures forall i :: 0 <= i < |g| ==> Covered(Merge(g), g[i])
    decreases |g|
  {
    if |g| == 1 {
      assert Merge(g)[0] == g[0];
    } else if |g| > 1 {
      if g[0].pid == g[1].pid {
        assert g[0].startTime < g[0].endTime <= g[1].startTime < g[1].endTime;
        JoinKeepsMergeable(g);
        MergeCovers([Join(g[0], g[1])] + g[2..]);
        CoveredJoin(g, Merge(g));
      } else {
        TailMergeable(g);
        MergeCovers(g[1..]);
        CoveredCons(g[0], g[1..], Merge(g[1..]));
        assert [g[0]] + g[1..] == g;
      }
    }
  }

  // ---------------------------------------------------------------------
  // Merging keeps a correct schedule correct.

  /** What is left after the first block of a mergeable timeline is
      mergeable. */
  lemma TailMergeable(g: seq<Block>)
    requires Mergeable(g) && |g| > 0
    ensures Mergeable(g[1..])
  {
    var t := g[1..];
    forall i, j | 0 <= i < j < |t| ensures t[i].endTime <= t[j].startTime {
      assert t[i] == g[i + 1] && t[j] == g[j + 1];
    }
    forall i | 0 <= i < |t| - 1 && t[i].pid == t[i + 1].pid ensures t[i].endTime == t[i + 1].startTime {
      assert t[i] == g[i + 1] && t[i + 1] == g[i + 2];
    }
  }

  /** Joining the first two blocks of a mergeable timeline when they belong
      to one process keeps it mergeable. */
  lemma JoinKeepsMergeable(g: seq<Block>)
    requires Mergeable(g) && |g| > 1 && g[0].pid == g[1].pid
    ensures Mergeable([Join(g[0], g[1])] + g[2..])
  {
    var r := [Join(g[0], g[1])] + g[2..];
    assert Sequential(r) by {
      forall i | 0 <= i < |r| ensures r[i].startTime < r[i].endTime {
        if i > 0 { assert r[i] == g[i + 1]; } else { assert g[0].startTime < g[0].endTime <= g[1].startTime; }
      }
      forall i, j | 0 <= i < j < |r| ensures r[i].endTime <= r[j].startTime {
        assert r[j] == g[j + 1];
        if i > 0 { assert r[i] == g[i + 1]; }
      }
    }
    forall i | 0 <= i < |r| - 1 && r[i].pid == r[i + 1].pid ensures r[i].endTime == r[i + 1].startTime {
      assert r[i + 1] == g[i + 2];
      if i > 0 { assert r[i] == g[i + 1]; }
    }
  }

  /** Joining two touching blocks of one process keeps its CPU time and its
      last end. */
  lemma JoinKeepsWorkAndFinish(g: seq<Block>, pid: Pid)
    requires Mergeable(g) && |g| > 1 && g[0].pid == g[1].pid
    ensures Work([Join(g[0], g[1])] + g[2..], pid) == Work(g, pid)
    ensures Finish([Join(g[0], g[1])] + g[2..], pid) == Finish(g, pid)
  {
    var r := [Join(g[0], g[1])] + g[2..];
    assert r[1..] == g[2..] && g[1..][1..] == g[2..];
    assert g[0].endTime == g[1].startTime;
  }

  /** Merging a mergeable timeline keeps every process's CPU time and last
      end. */
  lemma {:induction false} MergeKeepsWorkAndFinish(g: seq<Block>, pid: Pid)
    requires Mergeable(g)
    ensures Work(Merge(g), pid) == Work(g, pid) && Finish(Merge(g), pid) == Finish(g, pid)
    decreases |g|
  {
    if |g| > 1 {
      if g[0].pid == g[1].pid {
        JoinKeepsMergeable(g);
        JoinKeepsWorkAndFinish(g, pid);
        MergeKeepsWorkAndFinish([Join(g[0], g[1])] + g[2..], pid);
      } else {
        TailMergeable(g);
        MergeKeepsWorkAndFinish(g[1..], pid);
        assert ([g[0]] + Merge(g[1..]))[1..] == Merge(g[1..]);
      }
    }
  }

  /** Merging keeps the blocks non-empty and non-overlapping. */
  lemma {:induction false} MergeKeepsSequential(g: seq<Block>)
    requires Mergeable(g)
    ensures Sequential(Merge(g))
    decreases |g|
  {
    if |g| > 1 {
      if g[0].pid == g[1].pid {
        JoinKeepsMergeable(g);
        MergeKeepsSequential([Join(g[0], g[1])] + g[2..]);
      } else {
        var m := Merge(g[1..]);
        TailMergeable(g);
        MergeKeepsSequential(g[1..]);
        MergeStartsLater(g[1..], g[0].endTime);
        var o := [g[0]] + m;
        forall i | 0 <= i < |o| ensures o[i].startTime < o[i].endTime {
          if i > 0 { assert o[i] == m[i - 1]; }
        }
        forall i, j | 0 <= i < j < |o| ensures o[i].endTime <= o[j].startTime {
          assert o[j] == m[j - 1];
          if i > 0 { assert o[i] == m[i - 1]; }
        }
      }
    }
  }

  /** Every merged block starts where some input block of its process
      starts, so it starts no earlier than the input's bound `t`. */
  lemma {:induction false} MergeStartsLater(g: seq<Block>, t: nat)
    requires forall i :: 0 <= i < |g| ==> t <= g[i].startTime
    ensures forall j :: 0 <= j < |Merge(g)| ==> t <= Merge(g)[j].startTime
    decreases |g|
  {
    if |g| > 1 {
      if g[0].pid == g[1].pid {
        var r := [Join(g[0], g[1])] + g[2..];
        forall i | 0 <= i < |r| ensures t <= r[i].startTime {
          if i > 0 { assert r[i] == g[i + 1]; }
        }
        MergeStartsLater(r, t);
      } else {
        var m := Merge(g[1..]);
        forall i | 0 <= i < |g[1..]| ensures t <= g[1..][i].startTime {
          assert g[1..][i] == g[i + 1];
        }
        MergeStartsLater(g[1..], t);
        var o := [g[0]] + m;
        forall j | 0 <= j < |o| ensures t <= o[j].startTime {
          if j > 0 { assert o[j] == m[j - 1]; }
        }
      }
    }
  }

  /** Merging keeps every block on a known process and after its arrival. */
  lemma {:induction false} MergeKeepsArrivals(g: seq<Block>, ps: seq<Process>)
    requires RunsOnlyKnown(g, ps) && RespectsArrival(g, ps)
    ensures RunsOnlyKnown(Merge(g), ps) && RespectsArrival(Merge(g), ps)
    decreases |g|
  {
    if |g| > 1 {
      if g[0].pid == g[1].pid {
        var r := [Join(g[0], g[1])] + g[2..];
        forall i | 0 <= i < |r| ensures r[i].pid in Pids(ps) {
          if i > 0 { assert r[i] == g[i + 1]; }
        }
        forall i, k | 0 <= i < |r| && 0 <= k < |ps| && r[i].pid == ps[k].pid ensures ps[k].at <= r[i].startTime {
          if i > 0 { assert r[i] == g[i + 1]; }
        }
        MergeKeepsArrivals(r, ps);
      } else {
        var t, m := g[1..], Merge(g[1..]);
        forall i | 0 <= i < |t| ensures t[i].pid in Pids(ps) {
          assert t[i] == g[i + 1];
        }
        forall i, k | 0 <= i < |t| && 0 <= k < |ps| && t[i].pid == ps[k].pid ensures ps[k].at <= t[i].startTime {
          assert t[i] == g[i + 1];
        }
        MergeKeepsArrivals(t, ps);
        var o := [g[0]] + m;
        forall i | 0 <= i < |o| ensures o[i].pid in Pids(ps) {
          if i > 0 { assert o[i] == m[i - 1]; }
        }
        forall i, k | 0 <= i < |o| && 0 <= k < |ps| && o[i].pid == ps[k].pid ensures ps[k].at <= o[i].startTime {
          if i > 0 { assert o[i] == m[i - 1]; }
        }
      }
    }
  }

  /** Every idle gap of the merged timeline is an idle gap of the input, so
      no process waits across it. */
  lemma {:induction false} MergeKeepsIdleness(g: seq<Block>, ps: seq<Process>)
    requires IdleOnlyWhenDone(g, ps)
    ensures IdleOnlyWhenDone(Merge(g), ps)
    decreases |g|
  {
    if |g| > 1 {
      if g[0].pid == g[1].pid {
        var r := [Join(g[0], g[1])] + g[2..];
        forall i, k | 0 <= i < |r| - 1 && 0 <= k < |ps| && r[i].endTime < r[i + 1].startTime && ps[k].at < r[i + 1].startTime
          ensures ps[k].ct <= r[i].endTime
        {
          assert r[i + 1] == g[i + 2];
          if i > 0 { assert r[i] == g[i + 1]; }
        }
        MergeKeepsIdleness(r, ps);
      } else {
        var t, m := g[1..], Merge(g[1..]);
        forall i, k | 0 <= i < |t| - 1 && 0 <= k < |ps| && t[i].endTime < t[i + 1].startTime && ps[k].at < t[i + 1].startTime
          ensures ps[k].ct <= t[i].endTime
        {
          assert t[i] == g[i + 1] && t[i + 1] == g[i + 2];
        }
        MergeKeepsIdleness(t, ps);
        MergeHead(t);
        var o := [g[0]] + m;
        forall i, k | 0 <= i < |o| - 1 && 0 <= k < |ps| && o[i].endTime < o[i + 1].startTime && ps[k].at < o[i + 1].startTime
          ensures ps[k].ct <= o[i].endTime
        {
          assert o[i + 1] == m[i];
          if i > 0 { assert o[i] == m[i - 1]; } else { assert o[1].startTime == g[1].startTime; }
        }
      }
    }
  }

  /** Merging a correct schedule whose same-process neighbours touch yields a
      correct schedule, with the same metrics, in which the CPU still never
      idles while a process is ready. */
  lemma MergeKeepsSchedule(g: seq<Block>, ps: seq<Process>)
    requires ValidSchedule(g, ps) && NeverIdleWhenReady(g, ps) && SamePidContiguous(g)
    ensures ValidSchedule(Merge(g), ps) && NeverIdleWhenReady(Merge(g), ps)
    ensures Separated(Merge(g))
  {
    var m := Merge(g);
    MergeKeepsSequential(g);
    MergeKeepsArrivals(g, ps);
    MergeKeepsIdleness(g, ps);
    MergeHead(g);
    MergeIsSeparated(g);
    forall k | 0 <= k < |ps| ensures Accounted(m, ps[k]) {
      MergeKeepsWorkAndFinish(g, ps[k].pid);
    }
  }
}
