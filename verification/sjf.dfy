/** Non-preemptive Shortest-Job-First: whenever the CPU is free, the arrived
    and uncompleted process with the smallest (burst, arrival, order) runs to
    completion; if none has arrived the CPU idles until the next arrival. */
module Sjf {
  import opened Types
  import opened Timeline

  /** The order `available.sort(...)` puts processes in: shorter burst, then
      earlier arrival, then smaller insertion number; the sort is stable, so
      equal keys keep their list position, which is the last tie-break. */
  predicate ShorterFirst(ps: seq<Process>, a: nat, b: nat)
    requires a < |ps| && b < |ps|
  {
    var x, y := ps[a], ps[b];
    x.burst < y.burst ||
    (x.burst == y.burst &&
      (x.arrival < y.arrival ||
        (x.arrival == y.arrival && (x.order < y.order || (x.order == y.order && a < b)))))
  }

  /** Indices of the processes that have arrived by `t` and whose id is not
      among the completed ones, in list order. */
  function Available(ps: seq<Process>, completed: seq<string>, t: int): (r: seq<nat>)
    ensures forall j :: 0 <= j < |r| ==> r[j] < |ps| && ps[r[j]].arrival <= t && ps[r[j]].id !in completed
  {
    if ps == [] then []
    else
      var n := |ps| - 1;
      var r := Available(ps[..n], completed, t);
      assert forall j :: 0 <= j < |r| ==> ps[..n][r[j]] == ps[r[j]];
      r + (if ps[n].arrival <= t && ps[n].id !in completed then [n] else [])
  }

  /** Every arrived, uncompleted process is available. */
  lemma {:induction false} AvailableHas(ps: seq<Process>, completed: seq<string>, t: int, k: nat)
    requires k < |ps| && ps[k].arrival <= t && ps[k].id !in completed
    ensures k in Available(ps, completed, t)
  {
    var n := |ps| - 1;
    if k < n {
      AvailableHas(ps[..n], completed, t, k);
    }
  }

  /** Indices of the processes whose id is not among the completed ones. */
  function Pending(ps: seq<Process>, completed: seq<string>): (r: seq<nat>)
    ensures forall j :: 0 <= j < |r| ==> r[j] < |ps| && ps[r[j]].id !in completed
  {
    if ps == [] then []
    else
      var n := |ps| - 1;
      var r := Pending(ps[..n], completed);
      assert forall j :: 0 <= j < |r| ==> ps[..n][r[j]] == ps[r[j]];
      r + (if ps[n].id !in completed then [n] else [])
  }

  /** Every uncompleted process is pending. */
  lemma {:induction false} PendingHas(ps: seq<Process>, completed: seq<string>, k: nat)
    requires k < |ps| && ps[k].id !in completed
    ensures k in Pending(ps, completed)
  {
    var n := |ps| - 1;
    if k < n {
      PendingHas(ps[..n], completed, k);
    }
  }

  /** `Math.min` over the arrivals of the given processes. */
  function MinArrival(ps: seq<Process>, idx: seq<nat>): (m: int)
    requires |idx| > 0 && forall j :: 0 <= j < |idx| ==> idx[j] < |ps|
    ensures exists j :: 0 <= j < |idx| && ps[idx[j]].arrival == m
    ensures forall j :: 0 <= j < |idx| ==> m <= ps[idx[j]].arrival
  {
    if |idx| == 1 then ps[idx[0]].arrival
    else
      var m := MinArrival(ps, idx[1..]);
      assert forall j :: 1 <= j < |idx| ==> idx[1..][j - 1] == idx[j];
      if ps[idx[0]].arrival <= m then ps[idx[0]].arrival else m
  }

  /** The head of the sorted list of available processes: the one that goes
      before every other. */
  function Shortest(ps: seq<Process>, avail: seq<nat>): (c: nat)
    requires |avail| > 0 && forall j :: 0 <= j < |avail| ==> avail[j] < |ps|
    ensures c in avail
    ensures forall j :: 0 <= j < |avail| && avail[j] != c ==> ShorterFirst(ps, c, avail[j])
  {
    if |avail| == 1 then avail[0]
    else
      var c := Shortest(ps, avail[1..]);
      assert forall j :: 1 <= j < |avail| ==> avail[1..][j - 1] == avail[j];
      if c != avail[0] && ShorterFirst(ps, c, avail[0]) then c else avail[0]
  }

  /** Process `c` is dispatched as row `r` after the processes in `done`, once
      the CPU is free at `prevEnd`: `r` starts at `prevEnd` if some uncompleted
      process has arrived by then, otherwise at the earliest arrival among the
      uncompleted ones; `c` has arrived by the start and goes before every
      other uncompleted process that has. */
  predicate SjfStep(ps: seq<Process>, done: seq<nat>, prevEnd: int, c: nat, r: Row)
    requires c < |ps|
  {
    Echoes(r, ps[c]) && DispatchMetrics(r) && c !in done &&
    prevEnd <= r.start.value &&
    (r.start.value == prevEnd ||
      forall k :: 0 <= k < |ps| && k !in done ==> r.start.value <= ps[k].arrival) &&
    forall k :: 0 <= k < |ps| && k !in done && k != c && ps[k].arrival <= r.start.value ==>
      ShorterFirst(ps, c, k)
  }

  /** `res[i]` is the dispatch of process `pick[i]`, each one an SJF step
      after the ones before it. */
  predicate SjfOrder(ps: seq<Process>, pick: seq<nat>, res: seq<Row>) {
    |pick| == |res| &&
    (forall j :: 0 <= j < |pick| ==> pick[j] < |ps|) &&
    (res == [] ||
      var n := |res| - 1;
      SjfOrder(ps, pick[..n], res[..n]) && SjfStep(ps, pick[..n], EndOf(res[..n]), pick[n], res[n]))
  }

  lemma {:induction false} SjfOrderChronological(ps: seq<Process>, pick: seq<nat>, res: seq<Row>)
    requires SjfOrder(ps, pick, res) && AllAdmissible(ps)
    ensures Chronological(res)
  {
    if res != [] {
      var n := |res| - 1;
      SjfOrderChronological(ps, pick[..n], res[..n]);
    }
  }

  function Elements(s: seq<nat>): set<nat> {
    set x | x in s
  }

  lemma {:induction false} DistinctElements(s: seq<nat>)
    requires Distinct(s)
    ensures |Elements(s)| == |s|
  {
    if s != [] {
      var t := s[..|s| - 1];
      assert Distinct(t);
      DistinctElements(t);
      assert Elements(s) == Elements(t) + {s[|s| - 1]};
      assert s[|s| - 1] !in Elements(t);
    }
  }

  /** The indices 0 .. n - 1. */
  function Range(n: nat): (r: set<nat>)
    ensures |r| == n
    ensures forall k: nat :: k in r <==> k < n
  {
    if n == 0 then {} else Range(n - 1) + {n - 1}
  }

  /** Fewer than n distinct indices below n miss one of them. */
  lemma PigeonholeMiss(s: seq<nat>, n: nat) returns (k: nat)
    requires Distinct(s) && |s| < n && forall j :: 0 <= j < |s| ==> s[j] < n
    ensures k < n && k !in s
  {
    DistinctElements(s);
    var r := Range(n);
    if r <= Elements(s) {
      SubsetCard(r, Elements(s));
      assert false;
    }
    k :| k in r && k !in Elements(s);
  }

  /** n distinct indices below n are all of them. */
  lemma PigeonholeCover(s: seq<nat>, n: nat)
    requires Distinct(s) && |s| == n && forall j :: 0 <= j < |s| ==> s[j] < n
    ensures forall k :: 0 <= k < n ==> k in s
  {
    DistinctElements(s);
    forall k | 0 <= k < n ensures k in s {
      if k !in s {
        var r := Range(n) - {k};
        assert Elements(s) <= r;
        SubsetCard(Elements(s), r);
        assert false;
      }
    }
  }

  lemma SubsetCard(a: set<nat>, b: set<nat>)
    requires a <= b
    ensures |a| <= |b|
  {
    assert b == a + (b - a);
  }

  /** The ids of the processes `pick`, in that order. */
  function IdsOf(ps: seq<Process>, pick: seq<nat>): (ids: seq<string>)
    requires forall j :: 0 <= j < |pick| ==> pick[j] < |ps|
    ensures |ids| == |pick|
  {
    if pick == [] then [] else IdsOf(ps, pick[..|pick| - 1]) + [ps[pick[|pick| - 1]].id]
  }

  /** With distinct ids, a process's id is among those of `pick` exactly when
      the process is. */
  lemma {:induction false} IdsOfMember(ps: seq<Process>, pick: seq<nat>, k: nat)
    requires UniqueIds(ps) && k < |ps| && forall j :: 0 <= j < |pick| ==> pick[j] < |ps|
    ensures ps[k].id in IdsOf(ps, pick) <==> k in pick
  {
    if pick != [] {
      var p := pick[..|pick| - 1];
      IdsOfMember(ps, p, k);
      assert pick == p + [pick[|pick| - 1]];
    }
  }

  /** What the SJF loop knows about the dispatches so far: `res[i]` is the
      dispatch of process `pick[i]`, the picks are distinct, and `completed`
      lists their ids in dispatch order. */
  ghost predicate SjfDone(ps: seq<Process>, completed: seq<string>, pick: seq<nat>, res: seq<Row>) {
    |res| == |pick| <= |ps| &&
    (forall j :: 0 <= j < |pick| ==> pick[j] < |ps|) &&
    completed == IdsOf(ps, pick) &&
    Distinct(pick) &&
    SjfOrder(ps, pick, res) &&
    (forall i :: 0 <= i < |res| ==> DispatchMetrics(res[i])) &&
    Dispatched(res)
  }

  /** The state of the SJF loop at time `t` with timeline `gantt`: either the
      CPU has just freed up (t is the last completion), or it has idled up to
      the earliest pending arrival. */
  ghost predicate SjfState(ps: seq<Process>, completed: seq<string>, pick: seq<nat>, res: seq<Row>,
                           t: int, gantt: seq<Block>)
  {
    SjfDone(ps, completed, pick, res) &&
    EndOf(res) <= t &&
    (EndOf(res) < t ==>
      |Available(ps, completed, t)| > 0 &&
      forall k :: 0 <= k < |ps| && k !in pick ==> t <= ps[k].arrival) &&
    gantt == DispatchTimeline(res) + (if EndOf(res) < t then [IdleBlock(EndOf(res), t)] else [])
  }

  /** One more distinct index below n. */
  lemma PickStep(pick: seq<nat>, c: nat, n: nat)
    requires Distinct(pick) && (forall j :: 0 <= j < |pick| ==> pick[j] < n) && c < n && c !in pick
    ensures Distinct(pick + [c]) && |pick| + 1 <= n
    ensures forall j :: 0 <= j < |pick| + 1 ==> (pick + [c])[j] < n
  {
    var pick' := pick + [c];
    forall i, j | 0 <= i < j < |pick'| ensures pick'[i] != pick'[j] {
      if j < |pick| {
        assert pick'[i] == pick[i] && pick'[j] == pick[j];
      } else {
        assert pick'[i] in pick;
      }
    }
    DistinctElements(pick');
    SubsetCard(Elements(pick'), Range(n));
  }

  lemma SjfOrderAppend(ps: seq<Process>, pick: seq<nat>, res: seq<Row>, c: nat, row: Row)
    requires SjfOrder(ps, pick, res) && c < |ps| && SjfStep(ps, pick, EndOf(res), c, row)
    requires forall i :: 0 <= i < |res| ==> DispatchMetrics(res[i])
    ensures SjfOrder(ps, pick + [c], res + [row])
    ensures forall i :: 0 <= i < |res| + 1 ==> DispatchMetrics((res + [row])[i])
    ensures Dispatched(res + [row])
  {
    assert (pick + [c])[..|pick|] == pick && (res + [row])[..|res|] == res;
  }

  lemma IdsOfAppend(ps: seq<Process>, pick: seq<nat>, c: nat)
    requires (forall j :: 0 <= j < |pick| ==> pick[j] < |ps|) && c < |ps|
    ensures forall j :: 0 <= j < |pick| + 1 ==> (pick + [c])[j] < |ps|
    ensures IdsOf(ps, pick + [c]) == IdsOf(ps, pick) + [ps[c].id]
  {
    assert (pick + [c])[..|pick|] == pick;
  }

  /** The shortest available process at `t`, run from `t`, is an SJF step. */
  lemma ShortestStep(ps: seq<Process>, completed: seq<string>, pick: seq<nat>, res: seq<Row>,
                     t: int, c: nat, row: Row)
    requires UniqueIds(ps) && (forall j :: 0 <= j < |pick| ==> pick[j] < |ps|)
    requires completed == IdsOf(ps, pick) && EndOf(res) <= t
    requires EndOf(res) < t ==> forall k :: 0 <= k < |ps| && k !in pick ==> t <= ps[k].arrival
    requires |Available(ps, completed, t)| > 0 && c == Shortest(ps, Available(ps, completed, t))
    requires Echoes(row, ps[c]) && row.start == Some(t) && row.completion == t + row.burst
    requires row.turnaround == row.completion - row.arrival && row.waiting == t - row.arrival
    ensures c < |ps| && c !in pick && Echoes(row, ps[c]) && DispatchMetrics(row)
    ensures EndOf(res) <= row.start.value
    ensures row.start.value == EndOf(res) ||
      forall k :: 0 <= k < |ps| && k !in pick ==> row.start.value <= ps[k].arrival
    ensures forall k :: 0 <= k < |ps| && k !in pick && k != c && ps[k].arrival <= row.start.value ==>
      ShorterFirst(ps, c, k)
  {
    var avail := Available(ps, completed, t);
    IdsOfMember(ps, pick, c);
    forall k | 0 <= k < |ps| && k !in pick && k != c && ps[k].arrival <= t
      ensures ShorterFirst(ps, c, k)
    {
      IdsOfMember(ps, pick, k);
      AvailableHas(ps, completed, t, k);
    }
  }

  /** Dispatching the shortest available process at `t` extends what the loop
      knows by one SJF step. */
  lemma DoneStep(ps: seq<Process>, completed: seq<string>, pick: seq<nat>, res: seq<Row>,
                 t: int, c: nat, row: Row)
    requires UniqueIds(ps) && SjfDone(ps, completed, pick, res) && EndOf(res) <= t
    requires EndOf(res) < t ==> forall k :: 0 <= k < |ps| && k !in pick ==> t <= ps[k].arrival
    requires |Available(ps, completed, t)| > 0 && c == Shortest(ps, Available(ps, completed, t))
    requires Echoes(row, ps[c]) && row.start == Some(t) && row.completion == t + row.burst
    requires row.turnaround == row.completion - row.arrival && row.waiting == t - row.arrival
    ensures SjfDone(ps, completed + [ps[c].id], pick + [c], res + [row])
  {
    ShortestStep(ps, completed, pick, res, t, c, row);
    assert SjfStep(ps, pick, EndOf(res), c, row);
    PickStep(pick, c, |ps|);
    SjfOrderAppend(ps, pick, res, c, row);
    IdsOfAppend(ps, pick, c);
  }

  /** A row dispatched at `t` continues the timeline built so far, idle gap
      included. */
  lemma TimelineStep(res: seq<Row>, t: int, gantt: seq<Block>, row: Row)
    requires Dispatched(res) && EndOf(res) <= t && row.start == Some(t)
    requires gantt == DispatchTimeline(res) + (if EndOf(res) < t then [IdleBlock(EndOf(res), t)] else [])
    ensures Dispatched(res + [row]) && EndOf(res + [row]) == row.completion
    ensures gantt + [BusyBlock(row.id, t, row.completion)] == DispatchTimeline(res + [row])
  {
    DispatchTimelineAppend(res, row);
  }

  /** Dispatching the shortest available process keeps the loop state. */
  lemma DispatchStep(ps: seq<Process>, completed: seq<string>, pick: seq<nat>, res: seq<Row>,
                     t: int, gantt: seq<Block>, c: nat, row: Row)
    requires UniqueIds(ps) && SjfState(ps, completed, pick, res, t, gantt)
    requires |Available(ps, completed, t)| > 0 && c == Shortest(ps, Available(ps, completed, t))
    requires Echoes(row, ps[c]) && row.start == Some(t) && row.completion == t + row.burst
    requires row.turnaround == row.completion - row.arrival && row.waiting == t - row.arrival
    ensures SjfState(ps, completed + [ps[c].id], pick + [c], res + [row], t + ps[c].burst,
                     gantt + [BusyBlock(ps[c].id, t, t + ps[c].burst)])
  {
    DoneStep(ps, completed, pick, res, t, c, row);
    TimelineStep(res, t, gantt, row);
  }

  /** With nothing available, idling up to the earliest pending arrival keeps
      the loop state and makes a process available. */
  lemma IdleStep(ps: seq<Process>, completed: seq<string>, pick: seq<nat>, res: seq<Row>,
                 t: int, gantt: seq<Block>, next: int)
    requires UniqueIds(ps) && SjfState(ps, completed, pick, res, t, gantt)
    requires |Available(ps, completed, t)| == 0 && |Pending(ps, completed)| > 0
    requires next == MinArrival(ps, Pending(ps, completed))
    ensures t < next
    ensures SjfState(ps, completed, pick, res, next, gantt + [IdleBlock(t, next)])
    ensures |Available(ps, completed, next)| > 0
  {
    var pending := Pending(ps, completed);
    var w :| 0 <= w < |pending| && ps[pending[w]].arrival == next;
    AvailableHas(ps, completed, next, pending[w]);
    if ps[pending[w]].arrival <= t {
      AvailableHas(ps, completed, t, pending[w]);
      assert false;
    }
    assert EndOf(res) == t && gantt == DispatchTimeline(res);
    forall k | 0 <= k < |ps| && k !in pick ensures next <= ps[k].arrival {
      IdsOfMember(ps, pick, k);
      PendingHas(ps, completed, k);
    }
  }

  /** Once every process has completed, the loop state gives everything
      `Run` promises. */
  lemma Finished(ps: seq<Process>, completed: seq<string>, pick: seq<nat>, res: seq<Row>,
                 t: int, gantt: seq<Block>)
    requires AllAdmissible(ps) && UniqueIds(ps)
    requires SjfState(ps, completed, pick, res, t, gantt) && |completed| >= |ps|
    ensures |res| == |ps| && SjfOrder(ps, pick, res)
    ensures forall i :: 0 <= i < |res| ==> DispatchMetrics(res[i])
    ensures Dispatched(res)
    ensures forall k :: 0 <= k < |ps| ==> k in pick
    ensures gantt == DispatchTimeline(res)
    ensures Chronological(res) && Covers(gantt, 0, EndOf(res))
    ensures |BusyBlocks(gantt)| == |ps|
    ensures forall i :: 0 <= i < |res| ==>
      BusyBlocks(gantt)[i] == BusyBlock(res[i].id, res[i].start.value, res[i].completion)
  {
    PigeonholeCover(pick, |ps|);
    assert |Available(ps, completed, t)| == 0 by {
      var avail := Available(ps, completed, t);
      if |avail| > 0 {
        IdsOfMember(ps, pick, avail[0]);
      }
    }
    assert gantt == DispatchTimeline(res);
    SjfOrderChronological(ps, pick, res);
    DispatchTimelineCovers(res);
    DispatchTimelineBusy(res);
  }

  /** With nothing available, `Math.min` over the pending arrivals gives the
      time the CPU idles up to; a process is available then. */
  method IdleUntilArrival(queue: seq<Process>, completed: seq<string>, ghost pick: seq<nat>, res: seq<Row>,
                          t: int, gantt: seq<Block>)
    returns (t': int, gantt': seq<Block>)
    requires UniqueIds(queue) && SjfState(queue, completed, pick, res, t, gantt) && |completed| < |queue|
    requires |Available(queue, completed, t)| == 0
    ensures SjfState(queue, completed, pick, res, t', gantt')
    ensures |Available(queue, completed, t')| > 0
  {
    ghost var k := PigeonholeMiss(pick, |queue|);
    IdsOfMember(queue, pick, k);
    PendingHas(queue, completed, k);
    var pending := Pending(queue, completed);
    var nextArrival := MinArrival(queue, pending);
    IdleStep(queue, completed, pick, res, t, gantt, nextArrival);
    return nextArrival, gantt + [IdleBlock(t, nextArrival)];
  }

  /** The head of the available processes sorted by (burst, arrival, order)
      runs to completion from `t`. */
  method DispatchShortest(queue: seq<Process>, completed: seq<string>, ghost pick: seq<nat>, res: seq<Row>,
                          t: int, gantt: seq<Block>, available: seq<nat>)
    returns (completed': seq<string>, ghost pick': seq<nat>, res': seq<Row>, t': int, gantt': seq<Block>)
    requires UniqueIds(queue) && SjfState(queue, completed, pick, res, t, gantt)
    requires available == Available(queue, completed, t) && |available| > 0
    ensures SjfState(queue, completed', pick', res', t', gantt')
    ensures |completed'| == |completed| + 1
  {
    var c := Shortest(queue, available);
    var proc := queue[c];
    var startTime := t;
    var completionTime := startTime + proc.burst;
    var turnaround := completionTime - proc.arrival;
    var waiting := startTime - proc.arrival;
    var row := Row(proc.id, proc.arrival, proc.burst, Some(startTime), completionTime, turnaround, waiting);
    DispatchStep(queue, completed, pick, res, t, gantt, c, row);
    completed', pick', res' := completed + [proc.id], pick + [c], res + [row];
    t', gantt' := completionTime, gantt + [BusyBlock(proc.id, startTime, completionTime)];
  }

  /** One pass of the SJF loop at time `t`: if no uncompleted process has
      arrived, idle up to the earliest pending arrival; otherwise run the
      shortest available process to completion. */
  method Advance(queue: seq<Process>, completed: seq<string>, ghost pick: seq<nat>, res: seq<Row>,
                 t: int, gantt: seq<Block>)
    returns (completed': seq<string>, ghost pick': seq<nat>, res': seq<Row>, t': int, gantt': seq<Block>)
    requires UniqueIds(queue) && SjfState(queue, completed, pick, res, t, gantt) && |completed| < |queue|
    ensures SjfState(queue, completed', pick', res', t', gantt')
    ensures |completed'| == |completed| + 1 ||
      (completed' == completed && |Available(queue, completed, t)| == 0 && |Available(queue, completed', t')| > 0)
  {
    var available := Available(queue, completed, t);
    if |available| == 0 {
      t', gantt' := IdleUntilArrival(queue, completed, pick, res, t, gantt);
      return completed, pick, res, t', gantt';
    }
    completed', pick', res', t', gantt' := DispatchShortest(queue, completed, pick, res, t, gantt, available);
  }

  /** The SJF loop, from time 0 until as many processes have completed as
      there are processes. */
  method Schedule(queue: seq<Process>)
    returns (completed: seq<string>, ghost pick: seq<nat>, res: seq<Row>, t: int, gantt: seq<Block>)
    requires UniqueIds(queue)
    ensures SjfState(queue, completed, pick, res, t, gantt) && |completed| >= |queue|
  {
    var n := |queue|;
    t := 0;
    completed, pick, res, gantt := [], [], [], [];
    while |completed| < n
      invariant SjfState(queue, completed, pick, res, t, gantt)
      decreases n - |completed|, if |Available(queue, completed, t)| > 0 then 0 else 1
    {
      completed, pick, res, t, gantt := Advance(queue, completed, pick, res, t, gantt);
    }
  }

  /** The SJF results for `processes`: the rows of some order of dispatch
      that picks every process, each pick an SJF step after the ones before
      it, with the dispatch timeline of those rows. */
  ghost predicate Outcome(processes: seq<Process>, res: seq<Row>, gantt: seq<Block>) {
    |res| == |processes| && Dispatched(res) && gantt == DispatchTimeline(res) &&
    exists pick :: SjfOrder(processes, pick, res) && forall k :: 0 <= k < |processes| ==> k in pick
  }

  /** Runs SJF on a copy of `processes`. Every process is dispatched exactly
      once (`pick` is a permutation of the indices), each dispatch is an SJF
      step, and the timeline is the dispatch timeline of the rows: it covers
      [0, last completion) and holds one busy block per process. */
  method Run(processes: seq<Process>) returns (res: seq<Row>, gantt: seq<Block>, ghost pick: seq<nat>)
    requires AllAdmissible(processes) && UniqueIds(processes)
    ensures |res| == |processes| && SjfOrder(processes, pick, res)
    ensures forall i :: 0 <= i < |res| ==> DispatchMetrics(res[i])
    ensures Dispatched(res)
    ensures forall k :: 0 <= k < |processes| ==> k in pick
    ensures gantt == DispatchTimeline(res)
    ensures Chronological(res) && Covers(gantt, 0, EndOf(res))
    ensures |BusyBlocks(gantt)| == |processes|
    ensures forall i :: 0 <= i < |res| ==>
      BusyBlocks(gantt)[i] == BusyBlock(res[i].id, res[i].start.value, res[i].completion)
  {
    var completed, t;
    completed, pick, res, t, gantt := Schedule(processes);
    Finished(processes, completed, pick, res, t, gantt);
  }
}
