/** Round Robin: the clones, sorted by arrival, wait in a FIFO ready queue;
    the head of the queue runs for the time quantum or for what it has
    left, whichever is less, and goes to the back of the queue behind the
    processes that arrived meanwhile; when the queue is empty the clock
    jumps to the next arrival. The queue holds positions in the working
    list, which stand for the source's object references. */
module RoundRobin {
  import opened Processes
  import opened Timeline
  import opened BlockMerge
  import opened Slices

  /** No position is queued twice. */
  predicate Distinct(queue: seq<nat>) {
    forall i, j :: 0 <= i < j < |queue| ==> queue[i] != queue[j]
  }

  /** Every queued process is ready, and none is queued twice. */
  predicate Queued(procs: seq<Process>, queue: seq<nat>, t: nat) {
    && Distinct(queue)
    && forall i :: 0 <= i < |queue| ==> queue[i] < |procs| && Ready(procs[queue[i]], t)
  }

  /** The ready queue holds exactly the ready processes, each once. */
  predicate QueueState(procs: seq<Process>, queue: seq<nat>, t: nat) {
    && Queued(procs, queue, t)
    && forall k :: 0 <= k < |procs| && Ready(procs[k], t) ==> k in queue
  }

  /** `queue` holds every process that has arrived by `t`, in list order. */
  predicate FirstQueue(procs: seq<Process>, queue: seq<nat>, t: nat) {
    && (forall i, j :: 0 <= i < j < |queue| ==> queue[i] < queue[j])
    && (forall i :: 0 <= i < |queue| ==> queue[i] < |procs| && procs[queue[i]].at <= t)
    && (forall k :: 0 <= k < |procs| && procs[k].at <= t ==> k in queue)
  }

  /** The first loop of `rrScheduling`: every process that has arrived by
      `t`, in list order. */
  method InitialQueue(procs: seq<Process>, t: nat) returns (queue: seq<nat>)
    ensures FirstQueue(procs, queue, t)
  {
    queue := [];
    var i := 0;
    while i < |procs|
      invariant i <= |procs|
      invariant forall a, b :: 0 <= a < b < |queue| ==> queue[a] < queue[b]
      invariant forall a :: 0 <= a < |queue| ==> queue[a] < i && procs[queue[a]].at <= t
      invariant forall k :: 0 <= k < i && procs[k].at <= t ==> k in queue
    {
      if procs[i].at <= t {
        queue := queue + [i];
      }
      i := i + 1;
    }
  }

  /** Process `p` has time left and arrives after `t`. */
  predicate ArrivesAfter(p: Process, t: nat) {
    p.rt > 0 && p.at > t
  }

  /** The search of the empty-queue branch as a function, from position
      `i` on with `best` found so far: a process replaces `best` only when it
      arrives strictly earlier, so a tie goes to the first in list order. */
  function NextArrival(procs: seq<Process>, t: nat, i: nat, best: Option<nat>): (next: Option<nat>)
    requires i <= |procs|
    requires best.Some? ==> best.value < i && ArrivesAfter(procs[best.value], t)
    ensures next.Some? ==> next.value < |procs| && ArrivesAfter(procs[next.value], t)
    ensures best.Some? ==> next.Some?
    decreases |procs| - i
  {
    if i == |procs| then best
    else
      var best' := if ArrivesAfter(procs[i], t) && (best.None? || procs[i].at < procs[best.value].at) then Some(i) else best;
      NextArrival(procs, t, i + 1, best')
  }

  /** The loop that runs when the queue is empty: the first process in the
      list among those with time left that arrive after `t` at the earliest
      moment, or `None` (the source's `null`). */
  method EarliestArrivalAfter(procs: seq<Process>, t: nat) returns (next: Option<nat>)
    ensures next == NextArrival(procs, t, 0, None)
    ensures next.None? <==> forall k :: 0 <= k < |procs| ==> !ArrivesAfter(procs[k], t)
    ensures next.Some? ==> next.value < |procs| && ArrivesAfter(procs[next.value], t)
    ensures next.Some? ==> forall k :: 0 <= k < |procs| && ArrivesAfter(procs[k], t) ==> procs[next.value].at <= procs[k].at
    ensures next.Some? ==> forall k :: 0 <= k < next.value && ArrivesAfter(procs[k], t) ==> procs[next.value].at < procs[k].at
  {
    next := None;
    var i := 0;
    while i < |procs|
      invariant i <= |procs|
      invariant next.None? <==> forall k :: 0 <= k < i ==> !ArrivesAfter(procs[k], t)
      invariant next.Some? ==> next.value < i && ArrivesAfter(procs[next.value], t)
      invariant next.Some? ==> forall k :: 0 <= k < i && ArrivesAfter(procs[k], t) ==> procs[next.value].at <= procs[k].at
      invariant next.Some? ==> forall k :: 0 <= k < next.value && ArrivesAfter(procs[k], t) ==> procs[next.value].at < procs[k].at
      invariant NextArrival(procs, t, i, next) == NextArrival(procs, t, 0, None)
    {
      if ArrivesAfter(procs[i], t) && (next.None? || procs[i].at < procs[next.value].at) {
        next := Some(i);
      }
      i := i + 1;
    }
  }

  // ---------------------------------------------------------------------
  // Re-queueing after a slice.

  /** The scan after a slice, from position `i` on: in list order, every
      process that has arrived by `t`, has time left, is not queued yet and
      is not the one that just ran (`idx`) joins the back of the queue. */
  function Scan(procs: seq<Process>, queue: seq<nat>, idx: nat, t: nat, i: nat): seq<nat>
    requires i <= |procs|
    decreases |procs| - i
  {
    if i == |procs| then queue
    else Scan(procs, Visit(procs, queue, idx, t, i), idx, t, i + 1)
  }

  /** One step of the scan: position `i` joins the back of the queue when it
      is ready, not queued and not `idx`. */
  function Visit(procs: seq<Process>, queue: seq<nat>, idx: nat, t: nat, i: nat): seq<nat>
    requires i < |procs|
  {
    if Ready(procs[i], t) && i !in queue && i != idx then queue + [i] else queue
  }

  /** The scan keeps the queue in front. */
  lemma {:induction false} ScanPrefix(procs: seq<Process>, queue: seq<nat>, idx: nat, t: nat, i: nat)
    requires i <= |procs|
    ensures |queue| <= |Scan(procs, queue, idx, t, i)|
    ensures forall j :: 0 <= j < |queue| ==> Scan(procs, queue, idx, t, i)[j] == queue[j]
    decreases |procs| - i
  {
    if i < |procs| {
      var q' := Visit(procs, queue, idx, t, i);
      ScanPrefix(procs, q', idx, t, i + 1);
      assert forall j :: 0 <= j < |queue| ==> q'[j] == queue[j];
    }
  }

  /** What the scan adds: ready processes from position `i` on, other than
      `idx`, that were not queued. */
  lemma {:induction false} ScanAdded(procs: seq<Process>, queue: seq<nat>, idx: nat, t: nat, i: nat)
    requires i <= |procs|
    ensures var r := Scan(procs, queue, idx, t, i);
      forall j :: |queue| <= j < |r| ==> i <= r[j] < |procs| && Ready(procs[r[j]], t) && r[j] != idx && r[j] !in queue
    decreases |procs| - i
  {
    if i < |procs| {
      var q' := Visit(procs, queue, idx, t, i);
      ScanPrefix(procs, q', idx, t, i + 1);
      ScanAdded(procs, q', idx, t, i + 1);
      var r := Scan(procs, q', idx, t, i + 1);
      forall j | |queue| <= j < |r|
        ensures i <= r[j] < |procs| && Ready(procs[r[j]], t) && r[j] != idx && r[j] !in queue
      {
        if j < |q'| {
          assert r[j] == q'[j] == i;
        } else {
          assert r[j] !in q';
        }
      }
    }
  }

  /** The scan adds no repeats. */
  lemma {:induction false} ScanDistinct(procs: seq<Process>, queue: seq<nat>, idx: nat, t: nat, i: nat)
    requires i <= |procs| && Distinct(queue)
    ensures Distinct(Scan(procs, queue, idx, t, i))
    decreases |procs| - i
  {
    if i < |procs| {
      var q' := Visit(procs, queue, idx, t, i);
      assert Distinct(q');
      ScanDistinct(procs, q', idx, t, i + 1);
    }
  }

  /** Whoever is queued stays queued through the scan. */
  lemma {:induction false} ScanKeeps(procs: seq<Process>, queue: seq<nat>, idx: nat, t: nat, i: nat, x: nat)
    requires i <= |procs| && x in queue
    ensures x in Scan(procs, queue, idx, t, i)
    decreases |procs| - i
  {
    if i < |procs| {
      ScanKeeps(procs, Visit(procs, queue, idx, t, i), idx, t, i + 1, x);
    }
  }

  /** Every ready process from position `i` on, other than `idx`, is queued
      after the scan. */
  lemma {:induction false} ScanCovers(procs: seq<Process>, queue: seq<nat>, idx: nat, t: nat, i: nat)
    requires i <= |procs|
    ensures forall k :: i <= k < |procs| && Ready(procs[k], t) && k != idx ==> k in Scan(procs, queue, idx, t, i)
    decreases |procs| - i
  {
    if i < |procs| {
      var q' := Visit(procs, queue, idx, t, i);
      ScanCovers(procs, q', idx, t, i + 1);
      assert Scan(procs, queue, idx, t, i) == Scan(procs, q', idx, t, i + 1);
      forall k | i <= k < |procs| && Ready(procs[k], t) && k != idx
        ensures k in Scan(procs, q', idx, t, i + 1)
      {
        if k == i {
          assert i in q';
          ScanKeeps(procs, q', idx, t, i + 1, i);
        }
      }
    }
  }

  /** The scan adds positions in increasing order, that is, arrivals join
      the queue in list order. */
  lemma {:induction false} ScanIncreasing(procs: seq<Process>, queue: seq<nat>, idx: nat, t: nat, i: nat)
    requires i <= |procs|
    ensures var r := Scan(procs, queue, idx, t, i);
      forall a, b :: |queue| <= a < b < |r| ==> r[a] < r[b]
    decreases |procs| - i
  {
    if i < |procs| {
      var q' := Visit(procs, queue, idx, t, i);
      ScanIncreasing(procs, q', idx, t, i + 1);
      ScanAdded(procs, q', idx, t, i + 1);
      ScanPrefix(procs, q', idx, t, i + 1);
      var r := Scan(procs, q', idx, t, i + 1);
      forall a, b | |queue| <= a < b < |r| ensures r[a] < r[b] {
        if a < |q'| {
          assert r[a] == q'[a] == i;
        }
      }
    }
  }

  /** The scan keeps the queue in front, adds each ready process other than
      `idx` that was not queued (and nothing else), and so keeps the queue
      free of repeats. */
  lemma ScanFacts(procs: seq<Process>, queue: seq<nat>, idx: nat, t: nat)
    requires Distinct(queue)
    ensures var r := Scan(procs, queue, idx, t, 0);
      && |queue| <= |r| && r[..|queue|] == queue
      && Distinct(r)
      && (forall j :: |queue| <= j < |r| ==> r[j] < |procs| && Ready(procs[r[j]], t) && r[j] != idx && r[j] !in queue)
      && (forall a, b :: |queue| <= a < b < |r| ==> r[a] < r[b])
      && (forall k :: 0 <= k < |procs| && Ready(procs[k], t) && k != idx ==> k in r)
  {
    ScanPrefix(procs, queue, idx, t, 0);
    var r := Scan(procs, queue, idx, t, 0);
    assert r[..|queue|] == queue;
    ScanAdded(procs, queue, idx, t, 0);
    ScanDistinct(procs, queue, idx, t, 0);
    ScanCovers(procs, queue, idx, t, 0);
    ScanIncreasing(procs, queue, idx, t, 0);
  }

  /** The scan loop of `rrScheduling` (lines 530-535); the membership test
      is on the queue as it grows, as in the source. */
  method ScanArrivals(procs: seq<Process>, queue: seq<nat>, idx: nat, t: nat) returns (queue': seq<nat>)
    requires Distinct(queue)
    ensures queue' == Scan(procs, queue, idx, t, 0)
    ensures |queue| <= |queue'| && queue'[..|queue|] == queue && Distinct(queue')
    ensures forall j :: |queue| <= j < |queue'| ==> queue'[j] < |procs| && Ready(procs[queue'[j]], t) && queue'[j] != idx
    ensures forall a, b :: |queue| <= a < b < |queue'| ==> queue'[a] < queue'[b]
    ensures forall k :: 0 <= k < |procs| && Ready(procs[k], t) && k != idx ==> k in queue'
  {
    queue' := queue;
    var i := 0;
    while i < |procs|
      invariant i <= |procs|
      invariant Scan(procs, queue', idx, t, i) == Scan(procs, queue, idx, t, 0)
    {
      if Ready(procs[i], t) && !(i in queue') && i != idx {
        queue' := queue' + [i];
      }
      i := i + 1;
    }
    ScanFacts(procs, queue, idx, t);
  }

  /** What follows a slice of `idx`, with the head already taken off
      `queue`: the scan for arrivals, then `idx` itself at the back when it
      has time left. Unlike the source, the scan also runs when `idx` has
      just completed (see `RequeueAsWritten`). */
  function Requeue(procs: seq<Process>, queue: seq<nat>, idx: nat, t: nat): seq<nat>
    requires idx < |procs|
  {
    Scan(procs, queue, idx, t, 0) + (if procs[idx].rt > 0 then [idx] else [])
  }

  /** The re-queueing is first-in first-out: the rest of the queue stays in
      front in its order, the processes that arrived during the slice follow
      in list order, and `idx` goes to the back exactly when it has time
      left. */
  lemma RequeueInOrder(procs: seq<Process>, rest: seq<nat>, idx: nat, t: nat)
    requires idx < |procs| && Distinct(rest) && idx !in rest
    ensures var q := Requeue(procs, rest, idx, t); var back := if procs[idx].rt > 0 then [idx] else [];
      && |rest| + |back| <= |q| && q[..|rest|] == rest && q[|q| - |back|..] == back
      && (forall a, b :: |rest| <= a < b < |q| - |back| ==> q[a] < q[b])
      && (forall a :: |rest| <= a < |q| - |back| ==> q[a] != idx && q[a] !in rest && q[a] < |procs| && Ready(procs[q[a]], t))
  {
    ScanFacts(procs, rest, idx, t);
    var s := Scan(procs, rest, idx, t, 0);
    var back := if procs[idx].rt > 0 then [idx] else [];
    var q := s + back;
    assert q[..|rest|] == s[..|rest|];
    assert q[|q| - |back|..] == back;
    forall a | |rest| <= a < |q| - |back| ensures q[a] == s[a] { }
  }

  /** The source's version: on completion (lines 522-526) nobody is added,
      so whoever arrived during the slice is never queued unless another
      process is later preempted. It agrees with `Requeue` when the process
      has time left; on completion it keeps only the front of `Requeue`'s
      queue, without the arrivals. */
  function RequeueAsWritten(procs: seq<Process>, queue: seq<nat>, idx: nat, t: nat): (r: seq<nat>)
    requires idx < |procs|
    ensures procs[idx].rt > 0 ==> r == Requeue(procs, queue, idx, t)
    ensures procs[idx].rt == 0 ==> r == queue && r <= Requeue(procs, queue, idx, t)
  {
    if procs[idx].rt == 0 then
      ScanPrefix(procs, queue, idx, t, 0);
      queue
    else Scan(procs, queue, idx, t, 0) + [idx]
  }

  lemma DistinctTail(queue: seq<nat>)
    requires |queue| > 0 && Distinct(queue)
    ensures Distinct(queue[1..])
  {
    forall a, b | 0 <= a < b < |queue| - 1 ensures queue[1..][a] != queue[1..][b] {
      assert queue[1..][a] == queue[a + 1] && queue[1..][b] == queue[b + 1];
    }
  }

  /** After the slice of `idx` the queue holds exactly the ready processes,
      each once: the rest of the old queue in its order, then the arrivals
      in list order, then `idx` if it has time left. */
  lemma RequeueKeepsQueue(procs: seq<Process>, queue: seq<nat>, now: nat, e: nat,
                          procs': seq<Process>, queue': seq<nat>, t': nat)
    requires Queued(procs, queue, now) && |queue| > 0
    requires 0 < e <= procs[queue[0]].rt && t' == now + e
    requires procs' == procs[queue[0] := RunFor(procs[queue[0]], e, now)]
    requires queue' == Requeue(procs', queue[1..], queue[0], t')
    ensures QueueState(procs', queue', t')
  {
    var idx, rest := queue[0], queue[1..];
    DistinctTail(queue);
    ScanFacts(procs', rest, idx, t');
    var r := Scan(procs', rest, idx, t', 0);
    var o := queue';
    forall j | 0 <= j < |rest| ensures rest[j] != idx && Ready(procs'[rest[j]], t') {
      assert rest[j] == queue[j + 1];
    }
    forall j | 0 <= j < |r| ensures r[j] < |procs'| && Ready(procs'[r[j]], t') && r[j] != idx {
      if j < |rest| { assert r[j] == rest[j]; }
    }
    assert Distinct(o) by {
      forall a, b | 0 <= a < b < |o| ensures o[a] != o[b] {
        if b == |r| { assert o[a] == r[a]; }
      }
    }
    forall k | 0 <= k < |procs'| && Ready(procs'[k], t') ensures k in o {
      if k == idx { assert o[|r|] == idx; } else { assert k in r; }
    }
  }

  /** Processes A (id 1, arrival 0, burst 2) and B (id 2, arrival 1, burst
      3), run with quantum 2. */
  const TwoJobs: seq<Process> := [NewProcess(1, 0, 2), NewProcess(2, 1, 3)]

  /** The same processes just after A's first slice. */
  const AfterFirstSlice: seq<Process> := TwoJobs[0 := Process(1, 0, 2, 0, 2, 2, 0)]

  /** The clones of `TwoJobs` in arrival order are the jobs themselves. */
  lemma TwoJobsSorted()
    ensures SortByArrival(Clones(TwoJobs)) == TwoJobs
  {
    assert Clones(TwoJobs) == TwoJobs;
    assert SortByArrival(TwoJobs[1..]) == [TwoJobs[1]];
  }

  /** The run on `TwoJobs` starts at time 0 with only A queued. */
  lemma TwoJobsStart()
    ensures Starts(Round(TwoJobs, [0], [], 0, 0), TwoJobs)
  {
  }

  /** The head, A, runs for `Min(2, 2)` from time 0 and completes at 2;
      with the rest of the list unchanged this is `AfterFirstSlice`. */
  lemma FirstSliceCompletes()
    ensures RunFor(TwoJobs[0], Min(2, TwoJobs[0].rt), 0) == AfterFirstSlice[0]
    ensures AfterFirstSlice[0].rt == 0 && AfterFirstSlice[0].ct == 2
  {
  }

  /** After A completes, B has arrived, but the source leaves the queue
      empty, and its search for a process arriving after 2 finds none: it
      queues `null` and fails on the next line. */
  lemma AsWrittenLosesArrival()
    ensures RequeueAsWritten(AfterFirstSlice, [], 0, 2) == []
    ensures Ready(AfterFirstSlice[1], 2)
    ensures !ArrivesAfter(AfterFirstSlice[0], 2) && !ArrivesAfter(AfterFirstSlice[1], 2)
  {
  }

  /** The corrected re-queueing queues B. */
  lemma CorrectedQueuesArrival()
    ensures Requeue(AfterFirstSlice, [], 0, 2) == [1]
  {
    var ps := AfterFirstSlice;
    assert Visit(ps, [], 0, 2, 0) == [];
    assert Visit(ps, [], 0, 2, 1) == [1];
    assert Scan(ps, [1], 0, 2, 2) == [1];
    assert Scan(ps, [], 0, 2, 1) == [1];
  }

  /** How every slice is cut: process `k`'s slice lasts the quantum or what
      it had left, whichever is less. */
  predicate QuantumSlices(g: seq<Block>, ps: seq<Process>, quantum: nat) {
    forall i, k :: 0 <= i < |g| && 0 <= k < |ps| && g[i].pid == ps[k].pid ==> Length(g[i]) == Min(quantum, Left(g, ps[k], i))
  }

  lemma SliceKeepsQuantum(procs: seq<Process>, g: seq<Block>, t: nat, idx: nat, quantum: nat, e: nat,
                          procs': seq<Process>, g': seq<Block>)
    requires QuantumSlices(g, procs, quantum) && UniquePids(procs)
    requires forall k :: 0 <= k < |procs| ==> procs[k].rt + Work(g, procs[k].pid) == procs[k].bt
    requires idx < |procs| && e == Min(quantum, procs[idx].rt) && 0 < e
    requires procs' == procs[idx := RunFor(procs[idx], e, t)] && g' == g + [Block(procs[idx].pid, t, t + e)]
    ensures QuantumSlices(g', procs', quantum)
  {
    forall i, k | 0 <= i < |g'| && 0 <= k < |procs'| && g'[i].pid == procs'[k].pid
      ensures Length(g'[i]) == Min(quantum, Left(g', procs'[k], i))
    {
      assert SameJob(procs'[k], procs[k]);
      if i < |g| {
        assert g'[..i] == g[..i] && g'[i] == g[i];
      } else {
        assert g'[..i] == g;
        assert k == idx;
      }
    }
  }

  // ---------------------------------------------------------------------
  // The loop as a state machine: a pass of `rrScheduling`'s loop as a
  // function of the state it carries.

  /** The state of `rrScheduling`'s loop: the clones, the ready queue, the
      slices so far, the clock and the number of finished processes. */
  datatype Round = Round(procs: seq<Process>, queue: seq<nat>, slices: seq<Block>, clock: nat, completed: nat)

  /** The state before the loop (lines 476-483): the clones in arrival
      order, no slices, the clock at the first arrival, and every process
      that has arrived by then queued in list order. */
  predicate Starts(r: Round, sorted: seq<Process>) {
    && |sorted| > 0
    && r == Round(sorted, r.queue, [], sorted[0].at, 0)
    && FirstQueue(sorted, r.queue, sorted[0].at)
  }

  /** The empty-queue branch (lines 487-501): the clock jumps to the
      arrival `NextArrival` finds, which is queued alone. A non-empty queue
      is kept, and so is an empty one with no arrival left (the source's
      `null`). */
  function Refilled(r: Round): Round {
    if |r.queue| > 0 then r
    else match NextArrival(r.procs, r.clock, 0, None)
      case None => r
      case Some(w) => r.(queue := [w], clock := r.procs[w].at)
  }

  /** The head of the queue is a process with time left. */
  predicate HeadRunnable(r: Round) {
    |r.queue| > 0 && r.queue[0] < |r.procs| && r.procs[r.queue[0]].rt > 0
  }

  /** The rest of a pass (lines 504-538): the head of the queue runs for the
      quantum or for what it has left, whichever is less, and the rest of
      the queue is re-queued by `Requeue`. */
  function Served(r: Round, quantum: nat): Round
    requires HeadRunnable(r) && quantum > 0
  {
    var idx := r.queue[0];
    var e := Min(quantum, r.procs[idx].rt);
    var procs' := r.procs[idx := RunFor(r.procs[idx], e, r.clock)];
    Round(procs', Requeue(procs', r.queue[1..], idx, r.clock + e),
          r.slices + [Block(r.procs[idx].pid, r.clock, r.clock + e)], r.clock + e,
          if procs'[idx].rt == 0 then r.completed + 1 else r.completed)
  }

  /** `r'` follows `r` by one pass of the loop, taken while a process was
      unfinished. */
  predicate Step(r: Round, r': Round, quantum: nat) {
    && r.completed < |r.procs| && quantum > 0
    && HeadRunnable(Refilled(r))
    && r' == Served(Refilled(r), quantum)
  }

  /** Each state of `trace` follows the one before it by a pass. */
  ghost predicate Steps(trace: seq<Round>, quantum: nat) {
    forall i, j :: 0 <= i && j == i + 1 && j < |trace| ==> Step(trace[i], trace[j], quantum)
  }

  /** `trace` is the run of `rrScheduling`'s loop on `sorted`: it starts as
      before the loop, each state follows the one before by a pass, and it
      ends when every process has finished. */
  ghost predicate Run(trace: seq<Round>, sorted: seq<Process>, quantum: nat) {
    && |trace| > 0 && Starts(trace[0], sorted) && Steps(trace, quantum)
    && trace[|trace| - 1].completed == |sorted|
  }

  /** A pass more extends a run. */
  lemma StepsSnoc(trace: seq<Round>, r: Round, quantum: nat)
    requires |trace| > 0 && Steps(trace, quantum) && Step(trace[|trace| - 1], r, quantum)
    ensures Steps(trace + [r], quantum)
  {
  }

  /** Increasing sequences with the same elements are equal. */
  lemma {:induction false} IncreasingSameElements(a: seq<nat>, b: seq<nat>)
    requires forall i, j :: 0 <= i < j < |a| ==> a[i] < a[j]
    requires forall i, j :: 0 <= i < j < |b| ==> b[i] < b[j]
    requires forall x :: x in a <==> x in b
    ensures a == b
    decreases |a|
  {
    assert |a| > 0 ==> a[0] in b;
    assert |b| > 0 ==> b[0] in a;
    if |a| > 0 && |b| > 0 {
      var a', b' := a[1..], b[1..];
      forall x ensures x in a' <==> x in b' {
        assert x in a' <==> x in a && x != a[0];
        assert x in b' <==> x in b && x != b[0];
      }
      IncreasingSameElements(a', b');
      assert a == [a[0]] + a' && b == [b[0]] + b';
    }
  }

  /** Every state of a run has all of the processes. */
  lemma {:induction false} RunKeepsLength(trace: seq<Round>, sorted: seq<Process>, quantum: nat, i: nat)
    requires Run(trace, sorted, quantum) && i < |trace|
    ensures |trace[i].procs| == |sorted|
    decreases i
  {
    if i > 0 {
      RunKeepsLength(trace, sorted, quantum, i - 1);
      assert Step(trace[i - 1], trace[i], quantum);
    }
  }

  /** Two runs on the same list agree state by state. */
  lemma {:induction false} RunsAgree(trace: seq<Round>, trace': seq<Round>, sorted: seq<Process>, quantum: nat, i: nat)
    requires Run(trace, sorted, quantum) && Run(trace', sorted, quantum) && i < |trace| && i < |trace'|
    ensures trace[i] == trace'[i]
    decreases i
  {
    if i == 0 {
      IncreasingSameElements(trace[0].queue, trace'[0].queue);
    } else {
      RunsAgree(trace, trace', sorted, quantum, i - 1);
      assert Step(trace[i - 1], trace[i], quantum);
      assert Step(trace'[i - 1], trace'[i], quantum);
    }
  }

  /** Before its last state a run has an unfinished process. */
  lemma RunUnfinished(trace: seq<Round>, sorted: seq<Process>, quantum: nat, i: nat)
    requires Run(trace, sorted, quantum) && i + 1 < |trace|
    ensures trace[i].completed < |sorted|
  {
    RunKeepsLength(trace, sorted, quantum, i);
    assert Step(trace[i], trace[i + 1], quantum);
  }

  /** A run ends at its first state with every process finished. */
  lemma RunStopsAtEnd(trace: seq<Round>, trace': seq<Round>, sorted: seq<Process>, quantum: nat)
    requires Run(trace, sorted, quantum) && Run(trace', sorted, quantum)
    ensures |trace| <= |trace'|
  {
    if |trace'| < |trace| {
      var i := |trace'| - 1;
      RunsAgree(trace, trace', sorted, quantum, i);
      RunUnfinished(trace, sorted, quantum, i);
    }
  }

  /** The run of the loop on a list is unique: the contract of `Cycle`
      determines every slice, queue and metric. */
  lemma RunUnique(trace: seq<Round>, trace': seq<Round>, sorted: seq<Process>, quantum: nat)
    requires Run(trace, sorted, quantum) && Run(trace', sorted, quantum)
    ensures trace == trace'
  {
    RunStopsAtEnd(trace, trace', sorted, quantum);
    RunStopsAtEnd(trace', trace, sorted, quantum);
    forall i | 0 <= i < |trace| ensures trace[i] == trace'[i] {
      RunsAgree(trace, trace', sorted, quantum, i);
    }
  }

  // ---------------------------------------------------------------------
  // The loop.

  /** What the loop keeps apart from the queue: the working list holds the
      same jobs, the slices so far make progress, and every slice was cut
      by the quantum. */
  predicate Core(sorted: seq<Process>, procs: seq<Process>, g: seq<Block>, t: nat, completed: nat, quantum: nat) {
    && SameJobs(procs, sorted) && completed <= |procs|
    && Progress(procs, g, t, completed)
    && QuantumSlices(g, procs, quantum)
  }

  /** The invariant of `rrScheduling`'s loop. */
  predicate LoopState(sorted: seq<Process>, procs: seq<Process>, queue: seq<nat>, g: seq<Block>,
                      t: nat, completed: nat, quantum: nat)
  {
    Core(sorted, procs, g, t, completed, quantum) && QueueState(procs, queue, t)
  }

  /** The state just before a slice: as at the head of the loop, except that
      processes arriving exactly at `t` after a jump need not be queued yet. */
  predicate ReadyToRun(sorted: seq<Process>, procs: seq<Process>, queue: seq<nat>, g: seq<Block>,
                       t: nat, completed: nat, quantum: nat)
  {
    Core(sorted, procs, g, t, completed, quantum) && Queued(procs, queue, t) && |queue| > 0
  }

  /** With an empty queue nobody is ready, so the process the search finds
      is the earliest arrival of all unfinished processes: the jump keeps
      the state. */
  lemma JumpBranch(sorted: seq<Process>, procs: seq<Process>, g: seq<Block>, t: nat, completed: nat, quantum: nat,
                   next: Option<nat>)
    requires Admissible(sorted) && LoopState(sorted, procs, [], g, t, completed, quantum) && completed < |procs|
    requires next.None? <==> forall k :: 0 <= k < |procs| ==> !ArrivesAfter(procs[k], t)
    requires next.Some? ==> next.value < |procs| && ArrivesAfter(procs[next.value], t)
    requires next.Some? ==> forall k :: 0 <= k < |procs| && ArrivesAfter(procs[k], t) ==> procs[next.value].at <= procs[k].at
    ensures next.Some? && t < procs[next.value].at
    ensures ReadyToRun(sorted, procs, [next.value], g, procs[next.value].at, completed, quantum)
  {
    SameJobsKeep(procs, sorted);
    CountFinishedAll(procs);
    var u :| 0 <= u < |procs| && procs[u].rt != 0;
    assert ArrivesAfter(procs[u], t);
    var w := next.value;
    JumpKeepsProgress(procs, g, t, completed, procs[w].at);
    QueuedAlone(procs, w, procs[w].at);
  }

  /** A ready process alone makes a queue. */
  lemma QueuedAlone(procs: seq<Process>, w: nat, t: nat)
    requires w < |procs| && Ready(procs[w], t)
    ensures Queued(procs, [w], t)
  {
  }

  /** A slice of the ready process `idx` keeps everything but the queue,
      and the total time left shrinks. */
  lemma SliceKeepsCore(sorted: seq<Process>, procs: seq<Process>, idx: nat, g: seq<Block>, t: nat,
                       completed: nat, quantum: nat, e: nat,
                       procs': seq<Process>, g': seq<Block>, completed': nat)
    requires Admissible(sorted) && quantum > 0
    requires Core(sorted, procs, g, t, completed, quantum)
    requires idx < |procs| && Ready(procs[idx], t) && e == Min(quantum, procs[idx].rt)
    requires procs' == procs[idx := RunFor(procs[idx], e, t)]
    requires g' == g + [Block(procs[idx].pid, t, t + e)]
    requires completed' == completed + (if procs'[idx].rt == 0 then 1 else 0)
    ensures Core(sorted, procs', g', t + e, completed', quantum)
    ensures TotalRemaining(procs') < TotalRemaining(procs)
  {
    SameJobsKeep(procs, sorted);
    SliceKeepsProgress(procs, g, t, completed, idx, e, procs', g');
    SliceKeepsQuantum(procs, g, t, idx, quantum, e, procs', g');
    SameJobsUpdate(procs, sorted, idx, RunFor(procs[idx], e, t));
    CountFinishedAll(procs');
    TotalRemainingUpdate(procs, idx, RunFor(procs[idx], e, t));
  }

  /** The branch of `rrScheduling`'s loop for an empty queue: the clock
      jumps to the next arrival, which is queued alone. */
  method Refill(ghost sorted: seq<Process>, procs: seq<Process>, g: seq<Block>, t: nat,
                ghost completed: nat, ghost quantum: nat)
    returns (queue: seq<nat>, now: nat)
    requires Admissible(sorted) && LoopState(sorted, procs, [], g, t, completed, quantum) && completed < |procs|
    ensures t < now && ReadyToRun(sorted, procs, queue, g, now, completed, quantum)
    ensures |queue| == 1 && queue[0] < |procs| && now == procs[queue[0]].at
    ensures forall k :: 0 <= k < |procs| && ArrivesAfter(procs[k], t) ==> now <= procs[k].at && (k < queue[0] ==> now < procs[k].at)
    ensures Round(procs, queue, g, now, completed) == Refilled(Round(procs, [], g, t, completed))
  {
    var next := EarliestArrivalAfter(procs, t);
    JumpBranch(sorted, procs, g, t, completed, quantum, next);
    now := procs[next.value].at;
    queue := [next.value];
  }

  /** The slice of a pass of `rrScheduling`'s loop: the ready process `idx`
      runs for the quantum or what it has left, whichever is less. */
  method RunSlice(ghost sorted: seq<Process>, procs: seq<Process>, idx: nat, g: seq<Block>, t: nat,
                  completed: nat, quantum: nat)
    returns (e: nat, procs': seq<Process>, g': seq<Block>, completed': nat)
    requires Admissible(sorted) && quantum > 0
    requires Core(sorted, procs, g, t, completed, quantum) && idx < |procs| && Ready(procs[idx], t)
    ensures e == Min(quantum, procs[idx].rt) && 0 < e <= procs[idx].rt
    ensures procs' == procs[idx := RunFor(procs[idx], e, t)]
    ensures g' == g + [Block(procs[idx].pid, t, t + e)]
    ensures completed' == if procs'[idx].rt == 0 then completed + 1 else completed
    ensures Core(sorted, procs', g', t + e, completed', quantum)
    ensures TotalRemaining(procs') < TotalRemaining(procs)
  {
    var p := procs[idx];
    e := Min(quantum, p.rt);
    g' := g + [Block(p.pid, t, t + e)];
    procs' := procs[idx := RunFor(p, e, t)];
    completed' := if procs'[idx].rt == 0 then completed + 1 else completed;
    SliceKeepsCore(sorted, procs, idx, g, t, completed, quantum, e, procs', g', completed');
  }

  /** The rest of a pass of `rrScheduling`'s loop: the head of the queue
      runs for its slice, and the queue is rebuilt. */
  method RunHead(ghost sorted: seq<Process>, procs: seq<Process>, queue: seq<nat>, g: seq<Block>, t: nat,
                 completed: nat, quantum: nat)
    returns (procs': seq<Process>, queue': seq<nat>, g': seq<Block>, t': nat, completed': nat)
    requires Admissible(sorted) && quantum > 0
    requires ReadyToRun(sorted, procs, queue, g, t, completed, quantum)
    ensures Round(procs', queue', g', t', completed') == Served(Round(procs, queue, g, t, completed), quantum)
    ensures |procs'| == |procs| && LoopState(sorted, procs', queue', g', t', completed', quantum)
    ensures TotalRemaining(procs') < TotalRemaining(procs)
  {
    var e;
    e, procs', g', completed' := RunSlice(sorted, procs, queue[0], g, t, completed, quantum);
    t' := t + e;
    queue' := RebuildQueue(procs', queue, t');
    RequeueKeepsQueue(procs, queue, t, e, procs', queue', t');
    SliceServes(Round(procs, queue, g, t, completed), quantum, e, Round(procs', queue', g', t', completed'));
  }

  /** The pieces of a slice make up `Served`. */
  lemma SliceServes(r: Round, quantum: nat, e: nat, r': Round)
    requires HeadRunnable(r) && quantum > 0 && e == Min(quantum, r.procs[r.queue[0]].rt)
    requires r'.procs == r.procs[r.queue[0] := RunFor(r.procs[r.queue[0]], e, r.clock)]
    requires r'.slices == r.slices + [Block(r.procs[r.queue[0]].pid, r.clock, r.clock + e)]
    requires r'.clock == r.clock + e && r'.queue == Requeue(r'.procs, r.queue[1..], r.queue[0], r'.clock)
    requires r'.completed == if r'.procs[r.queue[0]].rt == 0 then r.completed + 1 else r.completed
    ensures r' == Served(r, quantum)
  {
  }

  /** The corrected re-queueing after the slice of the head of `queue`:
      the arrivals are scanned after every slice, then the head goes to the
      back if it has time left (lines 522-526 skip the scan on completion;
      see `RequeueAsWritten`). */
  method RebuildQueue(procs: seq<Process>, queue: seq<nat>, t: nat) returns (queue': seq<nat>)
    requires |queue| > 0 && queue[0] < |procs| && Distinct(queue)
    ensures queue' == Requeue(procs, queue[1..], queue[0], t)
  {
    var idx := queue[0];
    DistinctTail(queue);
    queue' := ScanArrivals(procs, queue[1..], idx, t);
    if procs[idx].rt > 0 {
      queue' := queue' + [idx];
    }
  }

  /** One pass of `rrScheduling`'s loop. */
  method Turn(ghost sorted: seq<Process>, procs: seq<Process>, queue: seq<nat>, g: seq<Block>, t: nat,
              completed: nat, quantum: nat)
    returns (procs': seq<Process>, queue': seq<nat>, g': seq<Block>, t': nat, completed': nat)
    requires Admissible(sorted) && quantum > 0
    requires LoopState(sorted, procs, queue, g, t, completed, quantum) && completed < |procs|
    ensures Step(Round(procs, queue, g, t, completed), Round(procs', queue', g', t', completed'), quantum)
    ensures |procs'| == |procs| && LoopState(sorted, procs', queue', g', t', completed', quantum)
    ensures TotalRemaining(procs') < TotalRemaining(procs)
  {
    var q, now := queue, t;
    if |q| == 0 {
      q, now := Refill(sorted, procs, g, t, completed, quantum);
    }
    procs', queue', g', t', completed' := RunHead(sorted, procs, q, g, now, completed, quantum);
  }

  lemma InitialState(sorted: seq<Process>, queue: seq<nat>, quantum: nat)
    requires Admissible(sorted) && ArrivalOrdered(sorted) && |sorted| > 0
    requires forall k :: 0 <= k < |sorted| ==> Fresh(sorted[k])
    requires FirstQueue(sorted, queue, sorted[0].at)
    ensures LoopState(sorted, sorted, queue, [], sorted[0].at, 0, quantum)
  {
    EmptyIsPartialSchedule(sorted);
    CountNoneFinished(sorted);
    forall k | 0 <= k < |sorted| ensures sorted[0].at <= sorted[k].at {
      if k > 0 { assert sorted[0].at <= sorted[k].at; }
    }
  }

  /** The loop of `rrScheduling` over the arrival-ordered clones; the
      slices are the source's chart before its final merge. */
  method Cycle(sorted: seq<Process>, quantum: nat) returns (slices: seq<Block>, procs: seq<Process>, ghost trace: seq<Round>)
    requires Admissible(sorted) && ArrivalOrdered(sorted) && |sorted| > 0 && quantum > 0
    requires forall k :: 0 <= k < |sorted| ==> Fresh(sorted[k])
    ensures SameJobs(procs, sorted) && Progress(procs, slices, LastEnd(slices), |procs|)
    ensures QuantumSlices(slices, procs, quantum)
    ensures Run(trace, sorted, quantum) && trace[|trace| - 1].procs == procs && trace[|trace| - 1].slices == slices
  {
    procs := sorted;
    var n := |procs|;
    var completed: nat := 0;
    slices := [];
    var currentTime := procs[0].at;
    var queue := InitialQueue(procs, currentTime);
    InitialState(sorted, queue, quantum);
    trace := [Round(procs, queue, slices, currentTime, completed)];
    while completed < n
      invariant |procs| == n && LoopState(sorted, procs, queue, slices, currentTime, completed, quantum)
      invariant |trace| > 0 && Starts(trace[0], sorted) && Steps(trace, quantum)
      invariant trace[|trace| - 1] == Round(procs, queue, slices, currentTime, completed)
      decreases TotalRemaining(procs)
    {
      procs, queue, slices, currentTime, completed := Turn(sorted, procs, queue, slices, currentTime, completed, quantum);
      StepsSnoc(trace, Round(procs, queue, slices, currentTime, completed), quantum);
      trace := trace + [Round(procs, queue, slices, currentTime, completed)];
    }
    FinalClock(procs, slices, currentTime);
  }

  /** `rrScheduling`: the merged Gantt blocks and the finished clones, in
      arrival order. `slices` is the chart before the merge. The source
      reads the first process's arrival without a check; the simulator only
      starts with at least one process and a positive quantum. */
  method RoundRobin(processes: seq<Process>, quantum: nat)
    returns (gantt: seq<Block>, procs: seq<Process>, ghost slices: seq<Block>, ghost trace: seq<Round>)
    requires Admissible(processes) && |processes| > 0 && quantum > 0
    ensures SameJobs(procs, SortByArrival(Clones(processes))) && AllFinished(procs)
    ensures ValidSchedule(gantt, procs) && NeverIdleWhenReady(gantt, procs) && Separated(gantt)
    ensures gantt == Merge(slices) && ValidSchedule(slices, procs) && QuantumSlices(slices, procs, quantum)
    ensures Run(trace, SortByArrival(Clones(processes)), quantum)
    ensures trace[|trace| - 1].procs == procs && trace[|trace| - 1].slices == slices
  {
    var sorted := SortByArrival(Clones(processes));
    PreparedWorkingList(processes);
    var s;
    s, procs, trace := Cycle(sorted, quantum);
    slices := s;
    AllRun(procs, s, Merge(s), LastEnd(s));
    gantt := MergeAdjacentBlocks(s);
  }
}
