# CPU scheduling simulator — verified model of the scheduling core

This project models the scheduling core of the `Simulator` component of a
CPU-scheduling teaching app. The component holds a list of processes, each
with:

- a user label (`id`);
- an arrival time and a burst time;
- an insertion number (`order`) that breaks ties;
- a remaining burst.

It runs one of three schedulers over a copy of that list and stores a
results table and a Gantt timeline:

- **First-Come-First-Served** (`Fcfs.Run`): the list is sorted by
  (arrival, order) with a stable sort (`Sorting.SortByArrival`; stability
  is `Sorting.SortByArrivalStable`). Each
  process runs to completion as soon as it has arrived and the CPU is free.
  An idle block fills every wait.
- **Shortest-Job-First**, non-preemptive (`Sjf.Run`): whenever the CPU is
  free, the process that runs is chosen from the arrived, uncompleted ones.
  It is the first of them in (burst, arrival, order, list position) order.
  When none has arrived, the CPU idles until the earliest uncompleted
  arrival. Completion is tracked by id, as in the source.
- **Round-Robin** (`RoundRobin.Run`): a sorted working copy with each
  remaining burst reset to the burst, a cursor into it, and a FIFO ready
  queue. The head of the queue runs for `min(q, remaining)`. Processes
  that arrived during that slice are queued before the preempted process
  goes back to the end. A process whose remaining burst reaches 0 records
  the end of its slice as its completion time. The results table lists the
  processes in their original order, with turnaround and waiting derived
  from those completion times.

The component's own state is the class `Simulator.Simulator`:

- fields `processes`, `nextId`, `results` and `ganttBlocks`;
- `AddProcess`, `RemoveProcess` and `ClearAll`, which edit the list;
- `RunScheduler`, which dispatches on the selected algorithm.

`results` and `ganttBlocks` are `Option`s because the component starts
them as `null`.

Modelling choices:

- **The three loops** are imperative methods with loop invariants. The SJF
  and round-robin loops are `Schedule` methods. One pass of each loop body
  is an `Advance` method.
- **Loop state** is kept as a predicate (`Sjf.SjfState`,
  `RoundRobin.RrState`). Lemmas show that each branch of the body keeps it
  (`Sjf.IdleStep`, `Sjf.DispatchStep`, `RoundRobin.AdmitKeeps`,
  `RoundRobin.IdleKeeps`, `RoundRobin.SliceKeeps`).
- **Round-robin passes as a function.** One pass of the round-robin loop
  is also the function `RoundRobin.RrNext` on a configuration `Conf`:
  working copy, ready queue, cursor, clock, timeline and completion table.
  `RoundRobin.Final` repeats it until the loop test fails.
  `RoundRobin.Advance` returns exactly `RrNext` of its input, and
  `RoundRobin.Schedule` stops where `Final` says. So the result of a
  round-robin run is determined pass by pass: FIFO service, admission in
  sorted order, arrivals during a slice queued ahead of the preempted
  process, and slices of `min(q, remaining)`.
- **Each run's results as a predicate.** `Fcfs.Outcome`, `Sjf.Outcome`
  and `RoundRobin.Outcome` say what each algorithm's rows and timeline
  are for a list. The simulator's run methods store results that satisfy
  the outcome of the selected algorithm.
- **FCFS and SJF** share one reference timeline:
  `Timeline.DispatchTimeline` of the result rows, which puts an idle block
  in front of a row exactly when the CPU waits for it.
- **The round-robin ready queue** holds positions in the working copy,
  where the source holds references to the same objects. The
  `completionTimes` object is a `map<string, int>`.
- **The round-robin quantum** is `parseInt(quantum) || 2`. It is modelled
  on an `Option<int>`, where `None` is a value that does not parse
  (`Simulator.EffectiveQuantum`). In the app, `runScheduler` is attached
  directly to a button's `onClick`, so its argument is the click event. It
  does not parse, and the quantum is always the default 2.

## Model

| member | source | states |
|---|---|---|
| `Sorting.SortByArrival` | src/components/Simulator.jsx:47-50 | the sorted copy has the same length and the same multiset of processes as the list (a permutation) |
| `Sorting.SortByArrivalSorted` | src/components/Simulator.jsx:47-50 | the sorted copy is ordered by arrival, ties by insertion number, as the comparator demands |
| `Sorting.InsertSorted` | src/components/Simulator.jsx:47-50 | inserting one process into a sorted list keeps it sorted |
| `Sorting.SortByArrivalUniqueIds` | src/components/Simulator.jsx:161-166 | sorting keeps the ids distinct when they were distinct |
| `Sorting.InsertWithKey` | src/components/Simulator.jsx:47-50 | inserting a process keeps, in order, the processes that share any given (arrival, order) key, with the new one in front of them |
| `Sorting.SortByArrivalStable` | src/components/Simulator.jsx:47-50 | the sort is stable: the processes with any given (arrival, order) key appear in the sorted copy in their list order |
| `Sorting.SortByArrivalAdmissible` | src/components/Simulator.jsx:161-166 | every process of the sorted copy still has arrival >= 0 and burst > 0 |
| `Types.CoversEndTime` | src/components/Simulator.jsx:197-202 | a timeline that covers [0, to) without gaps ends at `to` |
| `Types.CoversExtend` | src/components/Simulator.jsx:182-187 | appending a block that starts where the timeline ends extends the covered interval to the block's end |
| `Timeline.Slot` | src/components/Simulator.jsx:57-87 | the blocks pushed for one row when the CPU frees at `from`: an idle block from `from` to the row's start exactly when `from` is earlier, then the row's busy block from start to completion |
| `Timeline.DispatchTimeline` | src/components/Simulator.jsx:56-90 | the timeline of running the rows in sequence, one slot per row from the previous row's completion; it has between one and two blocks per row |
| `Timeline.DispatchTimelineAppend` | src/components/Simulator.jsx:56-90 | dispatching one more row appends exactly that row's slot (optional idle block, then busy block) to the timeline |
| `Timeline.CoversSlot` | src/components/Simulator.jsx:57-87 | a slot appended at the time the CPU frees keeps the timeline gapless up to the row's completion |
| `Timeline.ChronologicalDispatched` | src/components/Simulator.jsx:67-76 | rows that run one after another all carry a start time |
| `Timeline.DispatchTimelineCovers` | src/components/Simulator.jsx:52-90 | the dispatch timeline of chronological rows covers [0, last completion) without gap or overlap, and no row completes later than the last |
| `Timeline.BusyBlocksAppend` | src/components/Simulator.jsx:82-87 | the busy blocks of two joined timelines are the busy blocks of each, in order |
| `Timeline.SlotBusy` | src/components/Simulator.jsx:144-149 | a row's slot contributes exactly one busy block, [start, completion) of that row |
| `Timeline.DispatchTimelineBusy` | src/components/Simulator.jsx:144-149 | the busy blocks of a dispatch timeline are exactly one block per row, in row order, spanning the row's start to completion |
| `Fcfs.StartsWhenFreeChronological` | src/components/Simulator.jsx:57-89 | rows that start at max(previous completion, arrival) and run a positive burst are chronological |
| `Fcfs.FcfsStep` | src/components/Simulator.jsx:56-90 | one loop iteration (idle block only when currentTime < arrival, then the busy block) extends the dispatch timeline by that row |
| `Fcfs.OutcomeCovers` | src/components/Simulator.jsx:52-90 | in an FCFS outcome the rows are chronological, and the timeline covers [0, last completion) without gap or overlap, the last completion being the largest |
| `Fcfs.Run` | src/components/Simulator.jsx:46-94 | the FCFS outcome: row i echoes the i-th process of the sorted copy; start = max(arrival, previous completion); completion = start + burst; turnaround = completion − arrival; waiting = start − arrival = turnaround − burst >= 0; the timeline is the rows' dispatch timeline (idle exactly when currentTime < arrival); the rows are chronological, and the timeline is gapless from 0 to the last completion, which is the largest |
| `Sjf.Available` | src/components/Simulator.jsx:104-106 | every index returned is of a process arrived by `t` whose id is not completed (`Sjf.AvailableHas` gives the converse) |
| `Sjf.AvailableHas` | src/components/Simulator.jsx:104-106 | every arrived process whose id is not completed is available |
| `Sjf.Pending` | src/components/Simulator.jsx:110 | every index returned is of a process whose id is not completed (`Sjf.PendingHas` gives the converse) |
| `Sjf.PendingHas` | src/components/Simulator.jsx:110 | every process whose id is not completed is pending |
| `Sjf.MinArrival` | src/components/Simulator.jsx:109-111 | the result is the arrival of one of the given processes and at most the arrival of each |
| `Sjf.Shortest` | src/components/Simulator.jsx:122-128 | the chosen process is available and goes before every other available one by (burst, arrival, order, list position) |
| `Sjf.SjfOrderChronological` | src/components/Simulator.jsx:128-152 | a sequence of SJF dispatches runs chronologically |
| `Sjf.IdsOf` | src/components/Simulator.jsx:151 | the completed list has one id per dispatch |
| `Sjf.IdsOfMember` | src/components/Simulator.jsx:105 | with distinct ids, a process's id is in the completed list exactly when it was dispatched |
| `Sjf.PigeonholeMiss` | src/components/Simulator.jsx:103 | while fewer distinct indices were dispatched than there are processes, some process is not dispatched |
| `Sjf.PigeonholeCover` | src/components/Simulator.jsx:103 | once as many distinct indices below n were dispatched as there are processes, every process was dispatched |
| `Sjf.PickStep` | src/components/Simulator.jsx:151 | dispatching an undispatched process keeps the dispatched indices distinct |
| `Sjf.ShortestStep` | src/components/Simulator.jsx:122-152 | running the shortest available process from the current time is a legal SJF step: not yet dispatched, with the metric identities, starting when the CPU is free or at the earliest pending arrival, and ahead of every arrived rival |
| `Sjf.DoneStep` | src/components/Simulator.jsx:122-152 | dispatching that process extends the record of dispatches, ids and rows |
| `Sjf.TimelineStep` | src/components/Simulator.jsx:144-149 | the busy block pushed after the pending idle gap extends the dispatch timeline by the new row |
| `Sjf.DispatchStep` | src/components/Simulator.jsx:122-152 | the dispatch branch keeps the loop state and advances time by the burst |
| `Sjf.IdleStep` | src/components/Simulator.jsx:108-120 | with nothing available, idling to the minimum pending arrival moves time strictly forward, keeps the loop state, and afterwards some process is available |
| `Sjf.Finished` | src/components/Simulator.jsx:103-153 | when the loop ends every process was dispatched exactly once, in SJF order, with the metric identities, and the timeline is the dispatch timeline: gapless, chronological, one busy block per row |
| `Sjf.IdleUntilArrival` | src/components/Simulator.jsx:108-120 | the idle branch keeps the loop state and leaves some process available |
| `Sjf.DispatchShortest` | src/components/Simulator.jsx:122-152 | the dispatch branch keeps the loop state and completes exactly one more process |
| `Sjf.Advance` | src/components/Simulator.jsx:104-152 | one pass keeps the loop state and completes one process, or idles and then leaves one available |
| `Sjf.Schedule` | src/components/Simulator.jsx:103-153 | the loop ends with every process completed and the loop state intact |
| `Sjf.Run` | src/components/Simulator.jsx:96-157 | one row per process; `res[i]` dispatches process `pick[i]`, every process is picked, and each pick is the shortest arrived uncompleted process at its start time; metric identities; the timeline is the dispatch timeline, gapless from 0, with one busy block per row in row order |
| `RoundRobin.NextCursor` | src/components/Simulator.jsx:175-178 | the admission loop stops at the first process after the cursor that has not arrived by `t`, having passed only arrived ones |
| `RoundRobin.Admit` | src/components/Simulator.jsx:175-178 | the admission loop pushes exactly the positions from the cursor to `NextCursor` onto the ready queue, in order |
| `RoundRobin.TotalRemainingNonNegative` | src/components/Simulator.jsx:204 | with no negative remaining burst the remaining work is non-negative |
| `RoundRobin.TotalRemainingUpdate` | src/components/Simulator.jsx:204 | changing one remaining burst changes the total by the difference |
| `RoundRobin.AppendBlock` | src/components/Simulator.jsx:197-202 | a pushed block adds its length to its process's total service and becomes its last slice |
| `RoundRobin.JobsUnique` | src/components/Simulator.jsx:161-166 | the working copy keeps the ids distinct |
| `RoundRobin.IdleWaitsGrow` | src/components/Simulator.jsx:215 | recording more completion times keeps every idle block justified |
| `RoundRobin.AdmitKeeps` | src/components/Simulator.jsx:175-178 | admitting keeps the loop state: the ready queue holds, once each, exactly the admitted processes with work left |
| `RoundRobin.IdleKeeps` | src/components/Simulator.jsx:180-190 | with an empty ready queue, idling up to the arrival at the cursor keeps the loop state; that idle block waits for the next arrival, and everything already arrived has completed |
| `RoundRobin.Served` | src/components/Simulator.jsx:204 | serving changes only the served process, lowering its remaining burst by the slice |
| `RoundRobin.SliceCursor` | src/components/Simulator.jsx:205-210 | after a slice, every admitted process has arrived and has been served no earlier than its arrival |
| `RoundRobin.RequeueBounds` | src/components/Simulator.jsx:207-213 | after a slice every queued process is admitted and has work left; a finished one is never requeued |
| `RoundRobin.RequeueDistinct` | src/components/Simulator.jsx:207-213 | after a slice no process is queued twice |
| `RoundRobin.RequeueComplete` | src/components/Simulator.jsx:207-213 | after a slice every admitted process with work left is queued |
| `RoundRobin.SliceReady` | src/components/Simulator.jsx:207-213 | the ready queue after a slice (rest, new arrivals, then the preempted process) is a valid ready queue |
| `RoundRobin.SliceTimeline` | src/components/Simulator.jsx:193-202 | a slice of length in (0, q] keeps the timeline gapless with every busy block at most q long |
| `RoundRobin.SliceWork` | src/components/Simulator.jsx:197-204 | after a slice each process's slices still add up to the work done on it (burst − remaining) |
| `RoundRobin.SliceCompletions` | src/components/Simulator.jsx:212-216 | a completion time is recorded exactly when the remaining burst reaches 0, and it is the end of that process's last slice and at least arrival + burst |
| `RoundRobin.SliceIdleWaits` | src/components/Simulator.jsx:215 | a slice keeps every earlier idle block justified |
| `RoundRobin.SliceKeeps` | src/components/Simulator.jsx:192-216 | serving the head for min(q, remaining) and requeueing it behind new arrivals when work is left keeps the loop state |
| `RoundRobin.HeadPending` | src/components/Simulator.jsx:192 | the head of a non-empty ready queue is admitted and has work left |
| `RoundRobin.Slice` | src/components/Simulator.jsx:192-216 | the head runs for min(q, remaining); the block is pushed; newly arrived processes are queued before the preempted one, which is requeued only with work left; otherwise its completion is the slice's end; with q > 0 and work left, the total remaining work strictly decreases |
| `RoundRobin.IdleNext` | src/components/Simulator.jsx:180-190 | when admission leaves the ready queue empty, a process is still to arrive at the cursor, and the pass idles from the clock up to its arrival, changing nothing else |
| `RoundRobin.SliceNext` | src/components/Simulator.jsx:192-216 | otherwise the pass serves the queue head for min(q, remaining), pushes its block, admits the arrivals up to the slice's end ahead of the requeued head, and records a completion exactly when no work is left |
| `RoundRobin.IdleNextKeeps` | src/components/Simulator.jsx:175-190 | an idle pass keeps the loop state |
| `RoundRobin.SliceNextKeeps` | src/components/Simulator.jsx:175-216 | a serving pass keeps the loop state |
| `RoundRobin.Requeue` | src/components/Simulator.jsx:207-213 | the ready queue after a slice: the rest of the queue in order, then the positions admitted during the slice in list order, then the served process last when it has work left |
| `RoundRobin.Record` | src/components/Simulator.jsx:215 | the completion table after a slice gains the slice end for the served process exactly when it has finished; every other entry stays |
| `RoundRobin.RrNext` | src/components/Simulator.jsx:175-216 | one pass: admit the arrived processes; if the ready queue is empty, idle to the arrival at the cursor; otherwise serve the head for min(q, remaining), push its block, admit arrivals up to the slice end, then requeue the head or record its completion. Each pass pushes exactly one block, from the old clock to the new one, and moves the cursor only forward; an idle pass changes neither the working copy nor the completion table |
| `RoundRobin.NextKeeps` | src/components/Simulator.jsx:174-217 | every pass keeps the loop state |
| `RoundRobin.SliceProgress` | src/components/Simulator.jsx:204 | with q > 0, a slice of a process with work left lowers the total remaining work |
| `RoundRobin.NextProgress` | src/components/Simulator.jsx:174-217 | a pass lowers the total remaining work, or idles when nothing at the cursor has arrived, so that the process at the cursor has arrived on the next pass |
| `RoundRobin.Advance` | src/components/Simulator.jsx:174-217 | one pass of the loop body computes exactly the next configuration `RrNext` gives |
| `RoundRobin.Final` | src/components/Simulator.jsx:174-217 | repeating passes from a configuration of the loop reaches one where the loop test fails: every process admitted and the ready queue empty |
| `RoundRobin.WorkingCopy` | src/components/Simulator.jsx:166 | the working copy has the sorted list's processes in place, each with its remaining burst reset to its burst |
| `RoundRobin.InitState` | src/components/Simulator.jsx:161-173 | the loop state holds at time 0 with an empty timeline, nothing admitted and no completions |
| `RoundRobin.RrStateRemaining` | src/components/Simulator.jsx:204 | remaining bursts never go negative, so the total remaining work is non-negative |
| `RoundRobin.RrDone` | src/components/Simulator.jsx:174 | when the loop stops every process has a completion time, at least arrival + burst; its slices add up to its burst, and the last one ends at the completion |
| `RoundRobin.LastPass` | src/components/Simulator.jsx:174-216 | a pass after which the loop test fails is a slice that completes the process it serves, recording the current time as its completion |
| `RoundRobin.RrLast` | src/components/Simulator.jsx:174-216 | when the loop stops right after a completing slice, every completion time is at most the end of the timeline and that process's is the end |
| `RoundRobin.FinalEnds` | src/components/Simulator.jsx:174-217 | the configuration where the loop stops, reached from the start, has every completion time at most the end of its timeline and one of them at the end |
| `RoundRobin.InWorkingCopy` | src/components/Simulator.jsx:161-166 | every listed process is in the working copy |
| `RoundRobin.FromWorkingCopy` | src/components/Simulator.jsx:161-166 | every process of the working copy is in the list |
| `RoundRobin.IdleRows` | src/components/Simulator.jsx:180-190 | an idle block is justified by the results table: it ends at some arrival, and no process arrives inside it, and every process that arrived before it has completed |
| `RoundRobin.RrFinish` | src/components/Simulator.jsx:219-232 | the rows echo the listed processes and satisfy turnaround = completion − arrival and waiting = turnaround − burst >= 0; each process's slices sum to its burst and the last one ends at its completion |
| `RoundRobin.AllCompleted` | src/components/Simulator.jsx:219-220 | every listed process has a completion time to look up |
| `RoundRobin.Schedule` | src/components/Simulator.jsx:168-217 | the loop ends with the timeline and completion table of `Final` from the start configuration; every process has completed, its slices sum to its burst, each at most q long, on a gapless timeline, and every idle block waits for an arrival |
| `RoundRobin.RrEnd` | src/components/Simulator.jsx:219-232 | when the completion times are bounded by the end of the timeline and one reaches it, the rows' completions are bounded by it and one row's completion is it |
| `RoundRobin.RrRow` | src/components/Simulator.jsx:219-231 | a round-robin row repeats the process's id, arrival and burst, has no start, takes the given completion, and has turnaround = completion − arrival and waiting = turnaround − burst |
| `RoundRobin.Rows` | src/components/Simulator.jsx:219-232 | one row per listed process, in list order, completion looked up by id, with no start time |
| `RoundRobin.Run` | src/components/Simulator.jsx:159-236 | the round-robin outcome: the timeline is the final configuration's, from the sorted working copy, and row i is process i with the completion time recorded there; row i echoes process i; turnaround = completion − arrival, waiting = turnaround − burst >= 0; each process's slices sum to its burst, each slice at most q, and its last slice ends at its completion; the timeline is gapless from 0; each idle block ends at an arrival, has no arrival inside it, and follows the completion of everything arrived before it; every completion is at most the end of the timeline, and with a non-empty list some row completes exactly there |
| `RoundRobin.ExampleStep1` | src/components/Simulator.jsx:174-216 | with quantum 2, P1 (arrival 0, burst 4) and P2 (arrival 0, burst 2) are both admitted at 0, and P1 runs 0-2 and goes back behind P2 |
| `RoundRobin.ExampleStep2` | src/components/Simulator.jsx:192-216 | then P2 runs 2-4 and completes at 4 |
| `RoundRobin.ExampleStep3` | src/components/Simulator.jsx:192-216 | then P1 runs 4-6 and completes at 6, leaving nothing queued |
| `RoundRobin.ExampleFinal` | src/components/Simulator.jsx:174-217 | from the start, the loop stops after those three passes, with P2 completed at 4 and P1 at 6 |
| `RoundRobin.ExampleCopy` | src/components/Simulator.jsx:161-166 | P1 and P2 listed in that order are their own sorted working copy, so the example above is their round-robin outcome |
| `Simulator.EffectiveQuantum` | src/components/Simulator.jsx:160 | the quantum is the parsed value, or 2 when that is NaN or 0; it is positive exactly when the parsed value is not negative |
| `Simulator.SpliceStart` | src/components/Simulator.jsx:34 | `splice(index, 1)` removes the element at `index`, or at `len + index` for a negative index, or the first element when that is still negative; it removes nothing when index >= len |
| `Simulator.Simulator.constructor` | src/components/Simulator.jsx:5-9 | the list is empty, the id counter is 1, results and timeline are absent |
| `Simulator.Simulator.AddProcess` | src/components/Simulator.jsx:23-30 | appends the process with order = previous length and remaining burst = burst; the id counter goes up by 1; results are discarded; the timeline stays |
| `Simulator.Simulator.RemoveProcess` | src/components/Simulator.jsx:32-37 | removes exactly the element `splice(index, 1)` removes, keeping the others in order; results are discarded; the timeline and id counter stay |
| `Simulator.Simulator.ClearAll` | src/components/Simulator.jsx:39-44 | empties the list, resets the id counter to 1, and discards results and timeline |
| `Simulator.Simulator.RunFcfs` | src/components/Simulator.jsx:46-94 | stores rows and a timeline that are the FCFS outcome of the list; the list is untouched |
| `Simulator.Simulator.RunSjf` | src/components/Simulator.jsx:96-157 | stores rows and a timeline that are the SJF outcome of the list: the rows dispatch every process once, each the shortest arrived uncompleted one when the CPU frees, on their gapless dispatch timeline; the list is untouched |
| `Simulator.Simulator.RunRr` | src/components/Simulator.jsx:159-236 | stores rows and a timeline that are the round-robin outcome of the list with the effective quantum; the list is untouched |
| `Simulator.Simulator.RunScheduler` | src/components/Simulator.jsx:238-247 | with an empty list nothing runs and the alert is raised; otherwise the stored rows and timeline are the outcome of the selected algorithm, FCFS, SJF or round-robin with the effective quantum; an unknown algorithm changes nothing |

## Left out

- Rendering is not modelled: the JSX view, the results table, the process table, the algorithm selector and the app shell, because none of them computes a schedule.
- The `alert` is not modelled as a dialog: `Simulator.Simulator.RunScheduler` returns `alerted`, which is true exactly when the alert would show.
- React state updates are modelled as plain field assignments. `setState` batching, functional updaters and re-rendering do not affect the values stored.
- The input form's checks are preconditions: arrival >= 0 and burst > 0 for `Simulator.Simulator.AddProcess`, kept as the invariant `Valid`. The form's `parseInt` of its text fields is not modelled.
- `Simulator.EffectiveQuantum` models `parseInt(quantum)` only as "a number or NaN". JavaScript's parsing of arbitrary values (strings with trailing text, the click event the app actually passes) is not modelled.
- A negative quantum is excluded by a precondition. `Math.min(q, remaining)` would then be negative, and the round-robin loop would never finish.
- `Sjf.Run`, `RoundRobin.Run`, `Simulator.Simulator.RunSjf`, `Simulator.Simulator.RunRr` and `Simulator.Simulator.RunScheduler` require distinct process ids. With a repeated id, SJF's completed-by-id check excludes every process with that id once the first of them completes, so the others are never available again. `Math.min()` of the then empty list of pending arrivals is Infinity, the idle block runs to Infinity, and the loop never ends, because the completed list stays shorter than the process list. Round-robin's completion table would keep one time per id.
- `RoundRobin.Run` models `completionTimes` as a map from id to time, for every id. The source's table is a plain object, so for the id `__proto__` the store at src/components/Simulator.jsx:215 goes to the inherited `__proto__` setter, which ignores a number. The read at line 220 then returns `Object.prototype`, and that row's turnaround and waiting are NaN. The model stores and reads back the real completion time.
- `Sjf.Outcome` is not proved to determine the rows uniquely as a separate lemma. `RoundRobin.Outcome` is a function of the list and the quantum by construction, through `RoundRobin.Final`.
- `Simulator.Simulator.RunRr` does not repeat the idle-block justification of `RoundRobin.Run`. That justification is stated and proved there.
- `RoundRobin.Run` does not state as a separate property that every busy block belongs to a listed process. The timeline is fixed by `RoundRobin.Final`, and the slices of each listed process are accounted for exactly.
- Integers are unbounded. JavaScript numbers are doubles, and times beyond 2^53 are not modelled.
- Insertion numbers (`order`) can repeat after a removal followed by an addition. The model reproduces this, and the sort then falls back on list position: processes with the same arrival and insertion number keep their list order (`Sorting.SortByArrivalStable`).
