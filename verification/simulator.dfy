/** The simulator component's state: the process list, the next default id
    number, and the results and timeline of the last run; with the
    operations that edit the list and the one that runs the selected
    scheduler. */
module Simulator {
  import opened Types
  import opened Sorting
  import opened Timeline
  import Fcfs
  import Sjf
  import RoundRobin

  /** The quantum `parseInt(quantum) || 2` yields, where `None` stands for a
      value that does not parse (NaN). It is positive exactly when the
      parsed value is not negative; it is the parsed value, or the default
      2 when that is falsy (NaN or 0). */
  function EffectiveQuantum(quantum: Option<int>): (q: int)
    ensures q > 0 <==> (quantum.None? || quantum.value >= 0)
    ensures q == 2 || quantum == Some(q)
    ensures quantum.Some? && quantum.value != 0 ==> q == quantum.value
  {
    if quantum.None? || quantum.value == 0 then 2 else quantum.value
  }

  /** Where `Array.prototype.splice(index, 1)` starts on a list of length
      `len`: a negative index counts from the end, and one before the start
      is clamped to 0; an index past the end is clamped to `len`, where
      nothing is left to remove. */
  function SpliceStart(len: nat, index: int): (s: nat)
    ensures s <= len
    ensures s < len <==> len > 0 && index < len
    ensures 0 <= index < len ==> s == index
    ensures 0 <= len + index < len ==> s == len + index
    ensures len + index < 0 ==> s == 0
  {
    if index < 0 then (if len + index < 0 then 0 else len + index)
    else if index < len then index
    else len
  }

  class Simulator {
    /** The selected algorithm: "fcfs", "sjf" or "rr". */
    const algorithm: string
    var processes: seq<Process>
    var nextId: int
    var results: Option<seq<Row>>
    var ganttBlocks: Option<seq<Block>>

    /** Every listed process passed the input form and has its full burst
        left; the id counter starts at 1; results, when present, have one
        row per listed process and come with a timeline. */
    ghost predicate Valid()
      reads this
    {
      AllAdmissible(processes) &&
      (forall i :: 0 <= i < |processes| ==> processes[i].remainingBurst == processes[i].burst) &&
      nextId >= 1 &&
      (results.Some? ==> |results.value| == |processes| && ganttBlocks.Some?)
    }

    constructor(algorithm: string)
      ensures Valid()
      ensures this.algorithm == algorithm
      ensures processes == [] && nextId == 1 && results == None && ganttBlocks == None
    {
      this.algorithm := algorithm;
      processes := [];
      nextId := 1;
      results := None;
      ganttBlocks := None;
    }

    /** Appends a process whose tie-break number is the current length of
        the list and whose remaining burst is its burst; advances the id
        counter and discards the results. */
    method AddProcess(id: string, arrival: int, burst: int)
      requires Valid() && arrival >= 0 && burst > 0
      modifies this
      ensures Valid()
      ensures processes == old(processes) + [Process(id, arrival, burst, |old(processes)|, burst)]
      ensures nextId == old(nextId) + 1
      ensures results == None && ganttBlocks == old(ganttBlocks)
    {
      processes := processes + [Process(id, arrival, burst, |processes|, burst)];
      nextId := nextId + 1;
      results := None;
    }

    /** Removes the entry `splice(index, 1)` removes, if any, keeping the
        others in order, and discards the results. */
    method RemoveProcess(index: int)
      requires Valid()
      modifies this
      ensures Valid()
      ensures var s := SpliceStart(|old(processes)|, index);
        |processes| == |old(processes)| - (if s < |old(processes)| then 1 else 0) &&
        (forall i :: 0 <= i < s ==> processes[i] == old(processes)[i]) &&
        (forall i :: s <= i < |processes| ==> processes[i] == old(processes)[i + 1])
      ensures nextId == old(nextId) && results == None && ganttBlocks == old(ganttBlocks)
    {
      var updated := processes;
      var start := SpliceStart(|updated|, index);
      if start < |updated| {
        updated := updated[..start] + updated[start + 1..];
      }
      processes := updated;
      results := None;
    }

    /** Empties the list, resets the id counter and discards the results
        and the timeline. */
    method ClearAll()
      modifies this
      ensures Valid()
      ensures processes == [] && nextId == 1 && results == None && ganttBlocks == None
    {
      processes := [];
      nextId := 1;
      results := None;
      ganttBlocks := None;
    }

    /** Runs FCFS on a copy of the list and stores its rows and timeline. */
    method RunFcfs()
      requires Valid()
      modifies this
      ensures Valid()
      ensures processes == old(processes) && nextId == old(nextId)
      ensures results.Some? && ganttBlocks.Some?
      ensures Fcfs.Outcome(processes, results.value, ganttBlocks.value)
    {
      var res, gantt := Fcfs.Run(processes);
      results := Some(res);
      ganttBlocks := Some(gantt);
    }

    /** Runs SJF on a copy of the list and stores its rows and timeline. */
    method RunSjf()
      requires Valid() && UniqueIds(processes)
      modifies this
      ensures Valid()
      ensures processes == old(processes) && nextId == old(nextId)
      ensures results.Some? && ganttBlocks.Some?
      ensures var res := results.value;
        |res| == |processes| && Chronological(res) &&
        (forall i :: 0 <= i < |res| ==> DispatchMetrics(res[i])) &&
        ganttBlocks.value == DispatchTimeline(res) &&
        Covers(ganttBlocks.value, 0, EndOf(res))
      ensures Sjf.Outcome(processes, results.value, ganttBlocks.value)
    {
      var res, gantt;
      ghost var pick;
      res, gantt, pick := Sjf.Run(processes);
      assert Sjf.SjfOrder(processes, pick, res) && forall k :: 0 <= k < |processes| ==> k in pick;
      results := Some(res);
      ganttBlocks := Some(gantt);
    }

    /** Runs round-robin with the effective quantum on a copy of the list
        and stores its rows and timeline. */
    method RunRr(quantum: Option<int>)
      requires Valid() && UniqueIds(processes) && EffectiveQuantum(quantum) > 0
      modifies this
      ensures Valid()
      ensures processes == old(processes) && nextId == old(nextId)
      ensures results.Some? && ganttBlocks.Some?
      ensures var res, gantt := results.value, ganttBlocks.value;
        |res| == |processes| &&
        (forall i :: 0 <= i < |res| ==> Echoes(res[i], processes[i]) && RoundRobin.RrMetrics(res[i])) &&
        (forall i :: 0 <= i < |res| ==>
          RoundRobin.SliceTotal(gantt, res[i].id) == res[i].burst &&
          RoundRobin.LastSliceEnd(gantt, res[i].id) == Some(res[i].completion)) &&
        RoundRobin.Slices(EffectiveQuantum(quantum), gantt, EndTime(gantt))
      ensures RoundRobin.Outcome(EffectiveQuantum(quantum), processes, results.value, ganttBlocks.value)
    {
      var q := EffectiveQuantum(quantum);
      var res, gantt := RoundRobin.Run(processes, q);
      results := Some(res);
      ganttBlocks := Some(gantt);
    }

    /** With an empty list nothing runs (the user is alerted instead);
        otherwise the selected algorithm runs, and an unknown one does
        nothing. The list itself never changes. */
    method RunScheduler(quantum: Option<int>) returns (alerted: bool)
      requires Valid()
      requires algorithm == "sjf" || algorithm == "rr" ==> UniqueIds(processes)
      requires algorithm == "rr" ==> EffectiveQuantum(quantum) > 0
      modifies this
      ensures Valid()
      ensures processes == old(processes) && nextId == old(nextId)
      ensures alerted <==> |processes| == 0
      ensures results.Some? <==>
        (old(results).Some? && (alerted || algorithm !in {"fcfs", "sjf", "rr"})) ||
        (!alerted && algorithm in {"fcfs", "sjf", "rr"})
      ensures alerted || algorithm !in {"fcfs", "sjf", "rr"} ==>
        results == old(results) && ganttBlocks == old(ganttBlocks)
      ensures !alerted && algorithm == "fcfs" ==>
        results.Some? && ganttBlocks.Some? && Fcfs.Outcome(processes, results.value, ganttBlocks.value)
      ensures !alerted && algorithm == "sjf" ==>
        results.Some? && ganttBlocks.Some? && Sjf.Outcome(processes, results.value, ganttBlocks.value)
      ensures !alerted && algorithm == "rr" ==>
        results.Some? && ganttBlocks.Some? &&
        RoundRobin.Outcome(EffectiveQuantum(quantum), processes, results.value, ganttBlocks.value)
    {
      if |processes| == 0 {
        return true;
      }
      if algorithm == "fcfs" {
        RunFcfs();
      } else if algorithm == "sjf" {
        RunSjf();
      } else if algorithm == "rr" {
        RunRr(quantum);
      }
      return false;
    }
  }
}
