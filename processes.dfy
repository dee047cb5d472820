/** Processes: the `Process` record a scheduler works on, its clone, the
    admissibility conditions the process registry guarantees, and the stable
    sort by arrival time that three of the four policies start from. */
module Processes {

  /** A process id. The registry hands out `P1`, `P2`, ... from a counter;
      the model keeps the counter value, which is never an empty string in
      the original and therefore always truthy. */
  type Pid = nat

  datatype Option<T> = None | Some(value: T)

  /** One process: arrival time `at`, burst time `bt`, and the working
      fields a scheduler fills in: remaining time `rt`, completion time
      `ct`, turnaround time `tat` and waiting time `wt`. */
  datatype Process = Process(pid: Pid, at: nat, bt: nat, rt: nat, ct: nat, tat: int, wt: int)

  /** A process nobody has scheduled yet: all of its burst remains and no
      metric has been computed. */
  predicate Fresh(p: Process) {
    p.rt == p.bt && p.ct == 0 && p.tat == 0 && p.wt == 0
  }

  /** Two records describe the same job: same id, arrival and burst. */
  predicate SameJob(p: Process, q: Process) {
    p.pid == q.pid && p.at == q.at && p.bt == q.bt
  }

  /** The constructor: remaining time starts at the burst, metrics at 0. */
  function NewProcess(pid: Pid, at: nat, bt: nat): (p: Process)
    ensures Fresh(p) && p.pid == pid && p.at == at && p.bt == bt
  {
    Process(pid, at, bt, bt, 0, 0, 0)
  }

  /** `clone()`: a new process with the same id, arrival and burst. */
  function Clone(p: Process): Process {
    NewProcess(p.pid, p.at, p.bt)
  }

  /** A clone is a fresh copy of the same job, and cloning changes nothing
      exactly when the process was still fresh; so cloning twice is cloning
      once. */
  lemma CloneIsFreshCopy(p: Process)
    ensures SameJob(Clone(p), p) && Fresh(Clone(p))
    ensures Clone(p) == p <==> Fresh(p)
    ensures Clone(Clone(p)) == Clone(p)
  {
  }

  /** `processes.map(p => p.clone())` */
  function Clones(s: seq<Process>): seq<Process> {
    seq(|s|, i requires 0 <= i < |s| => Clone(s[i]))
  }

  function Pids(s: seq<Process>): set<Pid> {
    set p | p in s :: p.pid
  }

  predicate UniquePids(s: seq<Process>) {
    forall i, j :: 0 <= i < j < |s| ==> s[i].pid != s[j].pid
  }

  predicate PositiveBursts(s: seq<Process>) {
    forall i :: 0 <= i < |s| ==> s[i].bt > 0
  }

  /** What the registry guarantees of every list it passes to a scheduler:
      ids come from a counter, and a burst of 0 or less is refused. */
  predicate Admissible(s: seq<Process>) {
    UniquePids(s) && PositiveBursts(s)
  }

  predicate SameJobs(a: seq<Process>, b: seq<Process>) {
    |a| == |b| && forall i :: 0 <= i < |a| ==> SameJob(a[i], b[i])
  }

  /** Updating the working fields of a list keeps what it says about jobs. */
  lemma SameJobsKeep(a: seq<Process>, b: seq<Process>)
    requires SameJobs(a, b)
    ensures Admissible(b) ==> Admissible(a)
    ensures ArrivalOrdered(b) ==> ArrivalOrdered(a)
    ensures Pids(a) == Pids(b)
  {
    forall x | x in Pids(a) ensures x in Pids(b) {
      var p :| p in a && p.pid == x;
      var k :| 0 <= k < |a| && a[k] == p;
      assert b[k] in b;
    }
    forall x | x in Pids(b) ensures x in Pids(a) {
      var p :| p in b && p.pid == x;
      var k :| 0 <= k < |b| && b[k] == p;
      assert a[k] in a;
    }
  }

  /** Replacing one record by another of the same job keeps the jobs. */
  lemma SameJobsUpdate(a: seq<Process>, b: seq<Process>, idx: nat, q: Process)
    requires SameJobs(a, b) && idx < |a| && SameJob(q, a[idx])
    ensures SameJobs(a[idx := q], b)
  {
  }

  lemma SameJobsTrans(a: seq<Process>, b: seq<Process>, c: seq<Process>)
    requires SameJobs(a, b) && SameJobs(b, c)
    ensures SameJobs(a, c)
  {
  }

  /** The clones are fresh records of the registry's jobs, in its order. */
  lemma ClonesKeepJobs(s: seq<Process>)
    ensures SameJobs(Clones(s), s)
    ensures Admissible(s) ==> Admissible(Clones(s))
    ensures forall i :: 0 <= i < |s| ==> Fresh(Clones(s)[i])
  {
    assert SameJobs(Clones(s), s);
    SameJobsKeep(Clones(s), s);
  }

  /** The three metric assignments every policy performs when a process
      completes at time `t`. */
  function Complete(p: Process, t: nat): Process {
    p.(ct := t, tat := t - p.at, wt := t - p.at - p.bt)
  }

  /** The metric identities: turnaround is completion minus arrival, waiting
      is turnaround minus burst. */
  predicate MetricsConsistent(p: Process) {
    p.tat == p.ct - p.at && p.wt == p.tat - p.bt
  }

  predicate AllFinished(s: seq<Process>) {
    forall i :: 0 <= i < |s| ==> s[i].rt == 0
  }

  /** How many processes have no time left to run. */
  function CountFinished(s: seq<Process>): nat {
    if s == [] then 0 else (if s[0].rt == 0 then 1 else 0) + CountFinished(s[1..])
  }

  /** The total time still to be run. */
  function TotalRemaining(s: seq<Process>): nat {
    if s == [] then 0 else s[0].rt + TotalRemaining(s[1..])
  }

  /** Process `p` has arrived by time `t` and still has time left to run:
      the condition every policy's selection loop tests. */
  predicate Ready(p: Process, t: nat) {
    p.at <= t && p.rt > 0
  }

  /** Somebody is ready at time `t`. */
  predicate AnyReady(ps: seq<Process>, t: nat) {
    exists k :: 0 <= k < |ps| && Ready(ps[k], t)
  }

  /** Nothing has finished in a list of fresh processes with positive bursts. */
  lemma {:induction false} CountNoneFinished(s: seq<Process>)
    requires PositiveBursts(s) && forall k :: 0 <= k < |s| ==> Fresh(s[k])
    ensures CountFinished(s) == 0
    decreases |s|
  {
    if s != [] {
      assert s[0].rt > 0;
      forall k | 0 <= k < |s[1..]| ensures s[1..][k].bt > 0 && Fresh(s[1..][k]) {
        assert s[1..][k] == s[k + 1];
      }
      CountNoneFinished(s[1..]);
    }
  }

  /** The "next arrival" loop of `sjfScheduling` and `srtfScheduling`: the
      earliest arrival among the processes with time left, or `None` (the
      source's `Infinity`) when every process has finished. */
  method EarliestPendingArrival(procs: seq<Process>) returns (next: Option<nat>)
    ensures next.None? <==> forall k :: 0 <= k < |procs| ==> procs[k].rt == 0
    ensures next.Some? ==> exists k :: 0 <= k < |procs| && procs[k].rt > 0 && procs[k].at == next.value
    ensures next.Some? ==> forall k :: 0 <= k < |procs| && procs[k].rt > 0 ==> next.value <= procs[k].at
  {
    next := None;
    var i := 0;
    while i < |procs|
      invariant i <= |procs|
      invariant next.None? <==> forall k :: 0 <= k < i ==> procs[k].rt == 0
      invariant next.Some? ==> exists k :: 0 <= k < i && procs[k].rt > 0 && procs[k].at == next.value
      invariant next.Some? ==> forall k :: 0 <= k < i && procs[k].rt > 0 ==> next.value <= procs[k].at
    {
      if procs[i].rt > 0 && (next.None? || procs[i].at < next.value) {
        next := Some(procs[i].at);
      }
      i := i + 1;
    }
  }

  lemma {:induction false} CountFinishedUpdate(s: seq<Process>, i: nat, q: Process)
    requires i < |s|
    ensures CountFinished(s[i := q]) ==
            CountFinished(s) - (if s[i].rt == 0 then 1 else 0) + (if q.rt == 0 then 1 else 0)
    decreases |s|
  {
    if i == 0 {
      assert s[i := q][1..] == s[1..];
    } else {
      assert s[i := q][1..] == s[1..][i - 1 := q];
      CountFinishedUpdate(s[1..], i - 1, q);
    }
  }

  /** The `completed` counter reaches `n` exactly when every process has
      finished, and stays below `n` while one has not. */
  lemma {:induction false} CountFinishedAll(s: seq<Process>)
    ensures CountFinished(s) <= |s|
    ensures CountFinished(s) == |s| <==> AllFinished(s)
    decreases |s|
  {
    if s != [] {
      CountFinishedAll(s[1..]);
      if AllFinished(s) {
        assert AllFinished(s[1..]) by {
          forall i | 0 <= i < |s[1..]| ensures s[1..][i].rt == 0 {
            assert s[1..][i] == s[i + 1];
          }
        }
      }
      if CountFinished(s) == |s| {
        forall i | 0 <= i < |s| ensures s[i].rt == 0 {
          if i > 0 { assert s[i] == s[1..][i - 1]; }
        }
      }
    }
  }

  lemma {:induction false} TotalRemainingUpdate(s: seq<Process>, i: nat, q: Process)
    requires i < |s|
    ensures TotalRemaining(s[i := q]) == TotalRemaining(s) - s[i].rt + q.rt
    decreases |s|
  {
    if i == 0 {
      assert s[i := q][1..] == s[1..];
    } else {
      assert s[i := q][1..] == s[1..][i - 1 := q];
      TotalRemainingUpdate(s[1..], i - 1, q);
    }
  }

  // ---------------------------------------------------------------------
  // `processesClone.sort((a, b) => a.at - b.at)`: the engine's sort is
  // stable, so equal arrival times keep their input order. Insertion sort
  // that puts a new element before every element arriving no earlier is
  // such a sort.

  function Insert(x: Process, r: seq<Process>): seq<Process> {
    if r == [] || x.at <= r[0].at then [x] + r else [r[0]] + Insert(x, r[1..])
  }

  function SortByArrival(s: seq<Process>): seq<Process> {
    if s == [] then [] else Insert(s[0], SortByArrival(s[1..]))
  }

  predicate ArrivalOrdered(s: seq<Process>) {
    forall i, j :: 0 <= i < j < |s| ==> s[i].at <= s[j].at
  }

  /** The processes of `s` that arrive at time `a`, in the order of `s`. */
  function WithArrival(s: seq<Process>, a: nat): seq<Process> {
    if s == [] then [] else (if s[0].at == a then [s[0]] else []) + WithArrival(s[1..], a)
  }

  lemma {:induction false} InsertKeepsElements(x: Process, r: seq<Process>)
    ensures multiset(Insert(x, r)) == multiset(r) + multiset{x}
    ensures |Insert(x, r)| == |r| + 1
    decreases |r|
  {
    if r != [] && x.at > r[0].at {
      InsertKeepsElements(x, r[1..]);
      assert r == [r[0]] + r[1..];
    }
  }

  lemma ConsKeepsOrder(y: Process, t: seq<Process>)
    requires ArrivalOrdered(t)
    requires forall k :: 0 <= k < |t| ==> y.at <= t[k].at
    ensures ArrivalOrdered([y] + t)
  {
    var o := [y] + t;
    forall i, j | 0 <= i < j < |o| ensures o[i].at <= o[j].at {
      assert o[j] == t[j - 1];
      if i > 0 { assert o[i] == t[i - 1]; }
    }
  }

  lemma {:induction false} InsertKeepsOrder(x: Process, r: seq<Process>)
    requires ArrivalOrdered(r)
    ensures ArrivalOrdered(Insert(x, r))
    decreases |r|
  {
    if r == [] || x.at <= r[0].at {
      ConsKeepsOrder(x, r);
    } else {
      var r' := r[1..];
      assert ArrivalOrdered(r') by {
        forall i, j | 0 <= i < j < |r'| ensures r'[i].at <= r'[j].at {
          assert r'[i] == r[i + 1] && r'[j] == r[j + 1];
        }
      }
      InsertKeepsOrder(x, r');
      InsertKeepsElements(x, r');
      var t := Insert(x, r');
      forall k | 0 <= k < |t| ensures r[0].at <= t[k].at {
        assert t[k] in multiset(t);
        if t[k] != x {
          assert t[k] in multiset(r');
          var m :| 0 <= m < |r'| && r'[m] == t[k];
          assert r[m + 1] == t[k];
        }
      }
      ConsKeepsOrder(r[0], t);
    }
  }

  lemma {:induction false} InsertIsStable(x: Process, r: seq<Process>, a: nat)
    ensures WithArrival(Insert(x, r), a) == (if x.at == a then [x] else []) + WithArrival(r, a)
    decreases |r|
  {
    if r == [] || x.at <= r[0].at {
      var o := [x] + r;
      assert Insert(x, r) == o;
      assert o[0] == x && o[1..] == r;
      assert WithArrival(o, a) == (if x.at == a then [x] else []) + WithArrival(r, a);
    } else {
      var t := Insert(x, r[1..]);
      InsertIsStable(x, r[1..], a);
      var o := [r[0]] + t;
      assert Insert(x, r) == o;
      assert o[0] == r[0] && o[1..] == t;
      assert WithArrival(o, a) == (if r[0].at == a then [r[0]] else []) + WithArrival(t, a);
      assert WithArrival(r, a) == (if r[0].at == a then [r[0]] else []) + WithArrival(r[1..], a);
      assert x.at == a ==> r[0].at != a;
    }
  }

  /** The sort returns a permutation of its input, ordered by arrival time. */
  lemma {:induction false} SortByArrivalSortsAndPermutes(s: seq<Process>)
    ensures ArrivalOrdered(SortByArrival(s))
    ensures multiset(SortByArrival(s)) == multiset(s)
    ensures |SortByArrival(s)| == |s|
    decreases |s|
  {
    if s != [] {
      SortByArrivalSortsAndPermutes(s[1..]);
      InsertKeepsOrder(s[0], SortByArrival(s[1..]));
      InsertKeepsElements(s[0], SortByArrival(s[1..]));
      assert s == [s[0]] + s[1..];
    }
  }

  /** The sort is stable: for every arrival time, the processes arriving
      then appear in the output in their input order. */
  lemma {:induction false} SortByArrivalIsStable(s: seq<Process>, a: nat)
    ensures WithArrival(SortByArrival(s), a) == WithArrival(s, a)
    decreases |s|
  {
    if s != [] {
      SortByArrivalIsStable(s[1..], a);
      InsertIsStable(s[0], SortByArrival(s[1..]), a);
    }
  }

  lemma {:induction false} InsertKeepsPidsUnique(x: Process, r: seq<Process>)
    requires UniquePids(r) && x.pid !in Pids(r)
    ensures UniquePids(Insert(x, r))
    ensures Pids(Insert(x, r)) == Pids(r) + {x.pid}
    decreases |r|
  {
    if r == [] || x.at <= r[0].at {
      var o := [x] + r;
      forall i, j | 0 <= i < j < |o| ensures o[i].pid != o[j].pid {
        if i == 0 { assert o[j] == r[j - 1] && o[j] in r; }
        else { assert o[i] == r[i - 1] && o[j] == r[j - 1]; }
      }
      assert forall p :: p in o <==> p == x || p in r;
    } else {
      var r' := r[1..];
      assert r == [r[0]] + r';
      assert Pids(r) == {r[0].pid} + Pids(r');
      assert UniquePids(r') by {
        forall i, j | 0 <= i < j < |r'| ensures r'[i].pid != r'[j].pid {
          assert r'[i] == r[i + 1] && r'[j] == r[j + 1];
        }
      }
      forall p | p in r' ensures p.pid != r[0].pid {
        var k :| 0 <= k < |r'| && r'[k] == p;
        assert r[k + 1] == p;
      }
      InsertKeepsPidsUnique(x, r');
      var t := Insert(x, r');
      var o := [r[0]] + t;
      forall i, j | 0 <= i < j < |o| ensures o[i].pid != o[j].pid {
        if i == 0 { assert o[j] == t[j - 1] && o[j] in t && o[j].pid in Pids(t); }
        else { assert o[i] == t[i - 1] && o[j] == t[j - 1]; }
      }
      assert forall p :: p in o <==> p == r[0] || p in t;
    }
  }

  lemma {:induction false} SortByArrivalKeepsPidsUnique(s: seq<Process>)
    requires UniquePids(s)
    ensures UniquePids(SortByArrival(s))
    ensures Pids(SortByArrival(s)) == Pids(s)
    decreases |s|
  {
    if s != [] {
      var s' := s[1..];
      assert s == [s[0]] + s';
      assert UniquePids(s') by {
        forall i, j | 0 <= i < j < |s'| ensures s'[i].pid != s'[j].pid {
          assert s'[i] == s[i + 1] && s'[j] == s[j + 1];
        }
      }
      forall p | p in s' ensures p.pid != s[0].pid {
        var k :| 0 <= k < |s'| && s'[k] == p;
        assert s[k + 1] == p;
      }
      SortByArrivalKeepsPidsUnique(s');
      InsertKeepsPidsUnique(s[0], SortByArrival(s'));
      assert forall p :: p in s <==> p == s[0] || p in s';
    }
  }

  /** The working list of FCFS, SJF and RR: the clones of the registry's
      processes, sorted by arrival. It is admissible when the registry's
      list is, every entry is fresh, and it holds the same jobs. */
  lemma PreparedWorkingList(s: seq<Process>)
    requires Admissible(s)
    ensures Admissible(Clones(s)) && Admissible(SortByArrival(Clones(s)))
    ensures ArrivalOrdered(SortByArrival(Clones(s)))
    ensures |SortByArrival(Clones(s))| == |s|
    ensures forall i :: 0 <= i < |s| ==> Fresh(SortByArrival(Clones(s))[i])
    ensures multiset(SortByArrival(Clones(s))) == multiset(Clones(s))
  {
    var c := Clones(s);
    SortByArrivalSortsAndPermutes(c);
    SortByArrivalKeepsPidsUnique(c);
    var o := SortByArrival(c);
    forall i | 0 <= i < |o| ensures Fresh(o[i]) && o[i].bt > 0 {
      assert o[i] in multiset(c);
      var k :| 0 <= k < |c| && c[k] == o[i];
    }
  }
}
