# CPU scheduler visualizer: the scheduling engine, in Dafny

The visualizer takes a list of processes, each with an id, an arrival time
`at` and a burst time `bt`. It simulates one CPU under one of four policies:

- First-Come First-Served (FCFS)
- non-preemptive Shortest Job First (SJF)
- Shortest Remaining Time First (SRTF)
- Round Robin with a time quantum (RR)

Each policy produces a Gantt chart of `{pid, startTime, endTime}` blocks and
fills in every process's completion time `ct`, turnaround time
`tat = ct - at` and waiting time `wt = tat - bt`. The results table then sums
these three metrics.

This project models that engine in Dafny, as imperative code. Each scheduler
is a method whose `while` loop works on its own clones of the processes:

- the clones are a sequence that the loop reassigns;
- a position in that sequence stands for the clone object;
- the RR ready queue is a sequence of such positions.

Every method is proved against a specification. Its result is a correct
single-CPU schedule of the given jobs (`Timeline.ValidSchedule`):

- blocks are non-empty and do not overlap;
- every block belongs to a known process and starts no earlier than that
  process's arrival;
- every process receives exactly its burst;
- `ct` is the end of the process's last block, and `tat` and `wt` follow
  from it.

The CPU is also never idle while a process is waiting
(`Timeline.NeverIdleWhenReady`). On top of that, each policy has its own
selection rule, proved over the whole run:

- FCFS runs the jobs in list order.
- SJF picks the shortest burst, and each block is one whole run.
- SRTF picks the least remaining time, tick by tick.
- In RR every slice is `min(quantum, rt)`, and the ready queue holds exactly
  the ready processes, each once. The loop is also specified as a state
  machine (`RoundRobin.Round`, `Refilled`, `Served`, `Step`, `Run`): each
  pass refills an empty queue from the next arrival, runs the head of the
  queue and re-queues first-in first-out. `Cycle` is proved to follow it
  pass by pass, and the run on a given list is unique.

Modules, one per file:

- `Processes` (processes.dfy): the process record, its clone, the stable sort
  by arrival, and counting finished processes.
- `Timeline` (timeline.dfy): Gantt blocks and what a correct schedule is.
- `BlockMerge` (merge.dfy): `mergeAdjacentBlocks` and the properties of
  merging.
- `Fcfs` (fcfs.dfy), `Sjf` (sjf.dfy), `Srtf` (srtf.dfy) and `RoundRobin`
  (roundrobin.dfy): the four policies.
- `Slices` (slices.dfy): what SRTF and RR share.
- `Metrics` (metrics.dfy): the totals loop of `updateResults`.

Times are natural numbers, and process ids are the registry's counter values.

Every scheduler takes its input list by value and returns the clones with
their metrics. The caller's list is therefore unchanged by construction. Each
scheduler's contract ties the returned jobs to the input through `SameJobs`
(same ids, arrivals and bursts, in the same order):

- FCFS, SJF and RR compare against the clones sorted by arrival;
- SRTF, which does not sort, compares against the input itself.

Two places where the code does something its authors evidently did not mean
are listed under "Findings". The model follows the corrected behaviour, and
each finding also has a model of the code as written, with a concrete input
that shows the difference.

## Model

| member | source | states |
|---|---|---|
| Processes.NewProcess | script.js:5-12 | a new process has the given id, arrival and burst, remaining time equal to the burst, and all metrics 0 |
| Processes.CloneIsFreshCopy | script.js:17-21 | a clone is the same job (id, arrival, burst) with fresh working fields; cloning changes a process exactly when it is not fresh; cloning twice is cloning once |
| Processes.ClonesKeepJobs | script.js:271 | the mapped clones describe the same jobs, position by position, are all fresh, and keep ids unique and bursts positive |
| Processes.SortByArrivalSortsAndPermutes | script.js:274 | the sort by arrival orders by `at` and is a permutation of its input |
| Processes.SortByArrivalIsStable | script.js:274 | the sort is stable: the processes with any one arrival time keep their input order |
| Processes.SortByArrivalKeepsPidsUnique | script.js:274 | sorting keeps the set of ids and their uniqueness |
| Processes.PreparedWorkingList | script.js:271-274 | the sorted clones of an admissible list are admissible, fresh, arrival-ordered, and a permutation of the clones |
| Processes.CountNoneFinished | script.js:317 | with positive bursts nothing has finished at the start, so `completed` starts at 0 |
| Processes.CountFinishedAll | script.js:321 | the count of finished processes is at most `n`, and it reaches `n` exactly when every remaining time is 0, so `completed < n` means that work is left |
| Processes.EarliestPendingArrival | script.js:336-345 | the next-arrival search: none exactly when every process has finished; otherwise it is the arrival of an unfinished process and no unfinished process arrives earlier |
| Timeline.WaitingTimeNonNegative | script.js:290-292 | in a correct schedule every process has `ct >= at + bt`, `tat >= bt` and `wt >= 0` |
| Timeline.CompletedSchedule | script.js:279-301 | a partial schedule in which every process has received its burst is a correct schedule in which the CPU never idles while someone waits |
| Timeline.RunStep | script.js:284-299 | appending a block of a ready, unfinished process after the last block keeps a partial schedule, and gives that process, and only it, the block's length of CPU |
| BlockMerge.MergeAdjacentBlocks | script.js:550-571 | the loop computes the merge of the blocks, including the one-block and empty cases |
| BlockMerge.MergeHead | script.js:550-571 | the merge is no longer than its input, empty exactly when the input is, and starts with the first block's process and start and ends at the last block's end |
| BlockMerge.MergeIsSeparated | script.js:556-564 | no two neighbouring merged blocks belong to the same process |
| BlockMerge.MergeOfSeparated | script.js:556-564 | a timeline without same-process neighbours is left unchanged |
| BlockMerge.MergeSnoc | script.js:556-568 | adding one block at the end extends the last merged block when the process is the same, and is appended otherwise |
| BlockMerge.MergeIsIdempotent | script.js:550-571 | merging twice is merging once |
| BlockMerge.MergeEndpoints | script.js:555-568 | each merged block starts where an input block of its process starts, and ends where one ends |
| BlockMerge.MergeCovers | script.js:555-568 | when neighbouring blocks of a process touch, each input block lies inside a merged block of its process: a merged block spans its whole run |
| BlockMerge.MergeKeepsWorkAndFinish | script.js:557-559 | merging touching blocks keeps every process's CPU time and its last end |
| BlockMerge.MergeKeepsSequential | script.js:550-571 | merging keeps the blocks non-empty, ordered and non-overlapping |
| BlockMerge.MergeKeepsArrivals | script.js:550-571 | merging keeps every block on a known process, starting at or after its arrival |
| BlockMerge.MergeKeepsIdleness | script.js:550-571 | every idle gap of the merged chart is an idle gap of the input, so merging keeps "never idle while someone waits" |
| BlockMerge.MergeKeepsSchedule | script.js:550-571 | merging a correct schedule whose same-process neighbours touch gives a correct schedule without same-process neighbours |
| Fcfs.ScheduleStep | script.js:279-300 | one pass starts the next process at the later of the clock and its arrival, runs it for its burst, and completes it at the block's end; the schedule of the first `i+1` processes stays correct |
| Fcfs.ServeStep | script.js:279-300 | one pass keeps the loop invariant |
| Fcfs.ServeInOrder | script.js:279-301 | the loop runs every process of the arrival-ordered list once, in list order, with block `k` from max(previous end, `at`) for `bt`; the result is a correct schedule that never idles while someone waits |
| Fcfs.Fcfs | script.js:269-305 | `fcfsScheduling`: the sorted clones, each with `rt` untouched and metrics set; one block per process in arrival order; a correct, non-idling schedule |
| Sjf.ShortestBurst | script.js:323-333 | the selection loop finds nobody exactly when nobody is ready; otherwise it finds a ready process whose burst is no longer than any other ready one's, the first in the list on a tie |
| Sjf.Finished | script.js:354-357 | the picked process completes at the end of its run: `rt = 0`, `ct` is that time, and `tat` and `wt` follow |
| Sjf.RunKeepsRule | script.js:326-357 | running the picked process keeps the SJF rule for every finished process |
| Sjf.JumpBranch | script.js:336-345 | when nobody is ready the clock jumps forward to the earliest pending arrival, where someone is ready |
| Sjf.Decide | script.js:321-368 | one pass: with someone ready, one more process completes; with nobody ready, no block is emitted and the clock moves to the earliest arrival of an unfinished process; the loop invariant holds after either |
| Sjf.ShortestFirst | script.js:321-368 | the loop finishes every process with one whole, uninterrupted block each, in a correct, non-idling schedule that obeys the SJF rule |
| Sjf.Sjf | script.js:308-372 | `sjfScheduling`: the sorted clones, all finished; one block per process; a correct, non-idling schedule; whenever a job started, no job then waiting had a shorter burst (or an equal burst and an earlier place in the list) |
| Slices.RunFor | script.js:437-446 | a slice of `e` units lowers `rt` by `e`, and when nothing is left the process completes at the slice's end with consistent metrics |
| Slices.SliceKeepsProgress | script.js:436-449 | a slice of a ready process keeps the preemptive loop's state: a partial schedule, `rt = bt - CPU received`, touching same-process slices, and no open idle gap |
| Slices.JumpKeepsProgress | script.js:404-413 | a jump to the earliest pending arrival keeps that state and makes someone ready |
| Slices.AllRun | script.js:454-455 | when every process has finished, the slices and the chart merged from them are both correct, non-idling schedules, and the merged one has no same-process neighbours |
| Srtf.ShortestRemaining | script.js:390-401 | the selection loop finds nobody exactly when nobody is ready; otherwise it finds a ready process with the least remaining time, the first in the list on a tie |
| Srtf.EarliestArrival | script.js:386 | the clock starts at an arrival time no later than any process's arrival |
| Srtf.RecordTick | script.js:418-433 | on a switch the tick opens a new block; otherwise the last block is stretched to cover the tick, and the earlier blocks are unchanged |
| Srtf.RecordTickMerges | script.js:418-433 | the chart kept tick by tick is always the merge of the unit ticks run so far |
| Srtf.RecordTickAsWritten | script.js:419-433 | the bookkeeping as written also opens a new unit block on a switch |
| Srtf.AsWrittenAgreesWithoutGap | script.js:419-433 | when the clock has not jumped since the last block, the bookkeeping as written and the corrected one give the same chart |
| Srtf.FirstTicksOfA | script.js:419-433 | for A(0,2) and B(5,1), A's ticks at 0 and 1 give the block [0,2) from the empty chart under both bookkeepings |
| Srtf.AsWrittenStretchesIdleGap | script.js:421 | then, after the jump to 5, the bookkeeping as written gives A the block [0,5) (5 units of CPU for a burst of 2); the corrected one keeps [0,2) |
| Srtf.TickKeepsRule | script.js:394-438 | a tick of the picked process keeps the SRTF rule for every tick so far |
| Srtf.Decide | script.js:389-452 | one pass: with someone ready, one tick runs, the tick record grows by exactly that tick and the total remaining time shrinks; with nobody ready, nothing is run or recorded (processes, tick record, chart and last pid unchanged) and the clock moves to the earliest arrival of an unfinished process |
| Srtf.RunToCompletion | script.js:389-452 | the loop ends with every job run; the chart is the merge of unit ticks that obey the SRTF rule |
| Srtf.Srtf | script.js:375-459 | `srtfScheduling`: the clones in input order, all finished; the chart is a correct, non-idling schedule without same-process neighbours; it merges unit ticks; each tick ran a process with the least time left, the first in the list on a tie |
| RoundRobin.InitialQueue | script.js:478-483 | the first queue holds every process that has arrived by the start, in list order |
| RoundRobin.NextArrival | script.js:489-497 | the empty-queue search as a function: what it finds is an unfinished process arriving after the current time, and a pick found so far is replaced only by a strictly earlier arrival, never lost |
| RoundRobin.EarliestArrivalAfter | script.js:489-497 | the empty-queue search: none exactly when no unfinished process arrives later; otherwise the first in the list among the earliest such arrivals; its result is `NextArrival`'s |
| RoundRobin.ScanArrivals | script.js:530-535 | the re-scan appends, in increasing list order, exactly the ready processes not yet queued and other than the one just run, and keeps the queue free of duplicates |
| RoundRobin.ScanFacts | script.js:530-535 | the re-scan keeps the old queue as a prefix, and adds only ready, unqueued processes other than the one just run, in increasing list order, covering all of them, without duplicates |
| RoundRobin.RebuildQueue | script.js:522-538 | corrected re-queueing: the queue after every slice, including one that completes its process, is the re-scan, followed by the process just run when it has time left |
| RoundRobin.RequeueKeepsQueue | script.js:522-538 | with the corrected re-queueing, after a slice the rebuilt queue holds exactly the ready processes, each once |
| RoundRobin.RequeueAsWritten | script.js:522-538 | the re-queueing as written: when the process has time left it is the corrected re-queueing (arrivals scanned in list order, the process at the back); when the slice completes the process the queue is left as it was, a prefix of the corrected queue without the arrivals |
| RoundRobin.RequeueInOrder | script.js:522-538 | the queue after a slice is first-in first-out: the rest of the old queue stays in front in its order, the arrivals follow in increasing list order (each ready, not queued before, not the one just run), and the process just run goes to the back exactly when it has time left |
| RoundRobin.TwoJobsSorted | script.js:464-467 | for A(0,2), B(1,3) the arrival-ordered clones are the jobs themselves |
| RoundRobin.TwoJobsStart | script.js:476-483 | for that input the loop starts at time 0 with only A queued |
| RoundRobin.FirstSliceCompletes | script.js:504-526 | with quantum 2, A, at the head, runs `min(2, 2)` from time 0 and completes at time 2, which leaves the state the finding starts from |
| RoundRobin.AsWrittenLosesArrival | script.js:487-526 | for that input the queue as written is empty after A completes, although B is ready, and no process arrives after time 2, so the empty-queue search finds nobody |
| RoundRobin.CorrectedQueuesArrival | script.js:522-538 | for the same input the corrected re-queueing queues B |
| RoundRobin.SliceKeepsQuantum | script.js:507-519 | every slice lasts the quantum or what the process had left, whichever is less |
| RoundRobin.JumpBranch | script.js:487-501 | with an empty queue some unfinished process arrives later; the clock jumps forward to its arrival and it is queued alone |
| RoundRobin.Refill | script.js:487-501 | the empty-queue branch moves the clock forward to the first process in list order among the earliest unfinished arrivals after the current time, and queues that process alone (`Refilled`) |
| RoundRobin.RunSlice | script.js:504-526 | the head runs for `min(quantum, rt) > 0`, its `rt` drops by that, one block is appended, a completion is counted exactly when `rt` reaches 0, the total remaining time shrinks, and the loop state outside the queue is kept |
| RoundRobin.RunHead | script.js:504-538 | the head of the queue runs for `min(quantum, rt)` from the current time and its block is appended; the new queue is the rest of the old one, then the arrivals, then the head if unfinished (`Served`); the loop invariant is kept and the total remaining time shrinks |
| RoundRobin.Turn | script.js:485-540 | one pass of the loop is a `Step`: refill if the queue is empty, then serve the head; it keeps the invariant and strictly lowers the total remaining time |
| RoundRobin.Cycle | script.js:476-540 | the loop's states form a `Run`: the first is the arrival-ordered clones with the first queue, each next one is one pass of the one before, and the last has every process finished; each slice is cut by the quantum |
| RoundRobin.RunUnique | script.js:476-540 | two runs of the loop on the same list are equal, so the contract of `Cycle` fixes every slice, queue and metric |
| RoundRobin.RoundRobin | script.js:462-547 | `rrScheduling`: the sorted clones, all finished; the chart is a correct, non-idling schedule without same-process neighbours; it merges slices that are each `min(quantum, rt)` long, and the slices are those of the `Run` of the loop on the sorted clones |
| Metrics.Totals | script.js:656-675 | the totals loop sums `tat`, `wt` and `ct` over the processes, in list order |
| Metrics.TotalsConsistent | script.js:672-674 | when each process's metrics are consistent, total turnaround is total completion minus total arrival, and total waiting is total turnaround minus total burst |
| Metrics.TotalsOfSchedule | script.js:656-675 | for a correct schedule the totals are consistent, total waiting is never negative, and total turnaround is at least the total burst |

## Left out

- The DOM and the event wiring are not modelled: forms, the process table, the start/stop/reset controls, alerts, the Gantt animation driven by `setTimeout`, and the HTML rendering of results. They are presentation only.
- `getRandomColor` and the `color` field are not modelled. They use `Math.random` and only affect presentation.
- Times are natural numbers. `parseFloat` and fractional times are not modelled; SRTF's one-unit tick only makes sense for whole bursts. SRTF's completion test `rt <= 0` becomes `rt == 0`, since `rt` never goes below 0 in whole units.
- Negative arrival times are excluded by the type. The source does not check for them.
- The process registry (`addProcess`, `removeProcess` and the id counter) is not modelled. Its guarantees are kept as preconditions: bursts are positive (script.js:153), and ids are unique because they come from a counter (script.js:158). RR also needs a non-empty list (script.js:190) and a positive quantum (script.js:214).
- The averages in `updateResults` are not modelled: the division by the number of processes and the `toFixed` formatting. Only the integer totals are modelled.
- BlockMerge.MergeAdjacentBlocks: does not model that the source grows `current.endTime` in place. That write also changes the caller's input blocks, because `current` aliases them. For fewer than two blocks, the source returns the input array itself. The model returns a new sequence with the same blocks.
- Srtf.EarliestArrival: for an empty list it returns 0, where `Math.min` gives `Infinity`. The loop then never runs, and the empty list is refused before any scheduler starts (script.js:190).
- RoundRobin.RoundRobin: requires a non-empty list and a positive quantum, as the start of a simulation checks (script.js:190, 214). Its re-queueing scans for arrivals after every slice, including one that completes its process. This is the correction described under "Findings".
- RoundRobin.Refilled: with an empty queue and no later arrival, the source pushes `null` and throws on the next line; the specification function keeps the state instead. Under the loop invariant this case does not arise (`RoundRobin.JumpBranch`).
- Sjf.ShortestBurst and Srtf.ShortestRemaining: the tie-break is the first position in the list the loop walks. For SJF that list is the stably sorted clones (earlier arrival first, then input order); for SRTF it is the unsorted clones (input order only).

## Findings

| source | as written | input that shows it | evidently intended | confidence | as-written member | corrected member |
|---|---|---|---|---|---|---|
| script.js:421 | on a switch, the previous block's end is set to the current time, even when the clock has just jumped over an idle gap | SRTF with A(arrival 0, burst 2) and B(arrival 5, burst 1): the chart shows A at [0,5), 5 units of CPU for a burst of 2, and the idle CPU as busy | the previous block ends where its last tick ended, so A stays at [0,2) | not executed | Srtf.AsWrittenStretchesIdleGap | Srtf.RecordTickMerges |
| script.js:522-526 | when a slice completes its process, arrivals during the slice are not scanned in, and the empty-queue search (script.js:492) only accepts arrivals after the current time | RR with A(0,2), B(1,3) and quantum 2: A completes at 2 and the queue is empty; B arrived at 1, so the search finds nobody; `null` is pushed at script.js:500 and reading `p.rt` at script.js:507 throws | scan for arrivals after every slice, so B is queued at time 2 | not executed | RoundRobin.AsWrittenLosesArrival | RoundRobin.RequeueKeepsQueue |
