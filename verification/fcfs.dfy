/** First-Come-First-Served: processes run to completion in (arrival, order)
    order. */
module Fcfs {
  import opened Types
  import opened Sorting
  import opened Timeline

  /** Each row starts as soon as its process has arrived and the row before
      it has completed. */
  predicate StartsWhenFree(rows: seq<Row>) {
    if rows == [] then true
    else
      var prev, r := rows[..|rows| - 1], rows[|rows| - 1];
      StartsWhenFree(prev) && r.start.Some? &&
      r.start.value == (if EndOf(prev) < r.arrival then r.arrival else EndOf(prev))
  }

  /** Rows that start when the CPU is free and run for a positive burst are
      chronological. */
  lemma {:induction false} StartsWhenFreeChronological(rows: seq<Row>)
    requires StartsWhenFree(rows)
    requires forall i :: 0 <= i < |rows| ==> rows[i].burst > 0 && DispatchMetrics(rows[i])
    ensures Chronological(rows)
  {
    if rows != [] {
      var prev := rows[..|rows| - 1];
      assert forall i :: 0 <= i < |prev| ==> prev[i] == rows[i];
      StartsWhenFreeChronological(prev);
    }
  }

  /** Dispatching the next process when the CPU frees up keeps the rows
      starting when free and the timeline their dispatch timeline. */
  lemma FcfsStep(res: seq<Row>, gantt0: seq<Block>, row: Row, gantt: seq<Block>)
    requires Dispatched(res) && StartsWhenFree(res) && gantt0 == DispatchTimeline(res)
    requires row.start.Some? && row.start.value == (if EndOf(res) < row.arrival then row.arrival else EndOf(res))
    requires gantt == gantt0 + (if EndOf(res) < row.arrival then [IdleBlock(EndOf(res), row.arrival)] else [])
                            + [BusyBlock(row.id, row.start.value, row.completion)]
    ensures Dispatched(res + [row]) && StartsWhenFree(res + [row]) && gantt == DispatchTimeline(res + [row])
  {
    assert (res + [row])[..|res|] == res;
    DispatchTimelineAppend(res, row);
  }

  /** The FCFS results for `processes`: one row per process of the sorted
      copy, each started as soon as its process has arrived and the CPU is
      free, with the dispatch timeline of those rows. */
  predicate Outcome(processes: seq<Process>, res: seq<Row>, gantt: seq<Block>) {
    var sorted := SortByArrival(processes);
    |res| == |sorted| &&
    (forall i :: 0 <= i < |res| ==> Echoes(res[i], sorted[i]) && DispatchMetrics(res[i])) &&
    StartsWhenFree(res) && Dispatched(res) && gantt == DispatchTimeline(res)
  }

  /** In an FCFS outcome the rows are chronological, and the timeline covers
      the time from 0 to the last (and largest) completion without gap or
      overlap. */
  lemma OutcomeCovers(processes: seq<Process>, res: seq<Row>, gantt: seq<Block>)
    requires AllAdmissible(processes) && Outcome(processes, res, gantt)
    ensures Chronological(res)
    ensures Covers(gantt, 0, EndOf(res)) && forall i :: 0 <= i < |res| ==> res[i].completion <= EndOf(res)
  {
    SortByArrivalAdmissible(processes);
    StartsWhenFreeChronological(res);
    DispatchTimelineCovers(res);
  }

  /** Runs FCFS on a copy of `processes`. Row i belongs to the i-th process of
      the sorted list; it starts as soon as that process has arrived and the
      previous one has completed; the timeline is the dispatch timeline of the
      rows, so an idle block comes in front of a row exactly when the CPU
      had to wait for its arrival, and it covers the time from 0 to the
      last (and largest) completion without gap or overlap. */
  method Run(processes: seq<Process>) returns (res: seq<Row>, gantt: seq<Block>)
    requires AllAdmissible(processes)
    ensures Outcome(processes, res, gantt)
    ensures Chronological(res)
    ensures Covers(gantt, 0, EndOf(res)) && forall i :: 0 <= i < |res| ==> res[i].completion <= EndOf(res)
  {
    var sorted := SortByArrival(processes);
    var currentTime := 0;
    res, gantt := [], [];
    for k := 0 to |sorted|
      invariant |res| == k
      invariant currentTime == EndOf(res)
      invariant forall i :: 0 <= i < k ==> Echoes(res[i], sorted[i]) && DispatchMetrics(res[i])
      invariant Dispatched(res) && StartsWhenFree(res)
      invariant gantt == DispatchTimeline(res)
    {
      var proc := sorted[k];
      ghost var gantt0 := gantt;
      if currentTime < proc.arrival {
        gantt := gantt + [IdleBlock(currentTime, proc.arrival)];
        currentTime := proc.arrival;
      }
      var startTime := currentTime;
      var completionTime := startTime + proc.burst;
      var turnaround := completionTime - proc.arrival;
      var waiting := startTime - proc.arrival;
      var row := Row(proc.id, proc.arrival, proc.burst, Some(startTime), completionTime, turnaround, waiting);
      gantt := gantt + [BusyBlock(proc.id, startTime, completionTime)];
      currentTime := completionTime;
      FcfsStep(res, gantt0, row, gantt);
      assert Echoes(row, sorted[k]) && DispatchMetrics(row);
      res := res + [row];
    }
    OutcomeCovers(processes, res, gantt);
  }
}
