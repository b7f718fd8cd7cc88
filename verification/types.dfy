/** Values shared by the three schedulers and the simulator state. */
module Types {

  datatype Option<T> = None | Some(value: T)

  /** A process as the simulator stores it: a user label, an arrival time, a
      burst time, the insertion number used to break ties, and the remaining
      burst that round-robin counts down on its working copy. */
  datatype Process = Process(id: string, arrival: int, burst: int, order: int, remainingBurst: int)

  /** One row of the results table. `start` is the dispatch time; round-robin
      rows carry none. */
  datatype Row = Row(id: string, arrival: int, burst: int, start: Option<int>,
                     completion: int, turnaround: int, waiting: int)

  /** One Gantt block: a process id, or the idle marker with `isIdle` set. */
  datatype Block = Block(id: string, start: int, end: int, isIdle: bool)

  const IDLE: string := "IDLE"

  function IdleBlock(start: int, end: int): Block {
    Block(IDLE, start, end, true)
  }

  function BusyBlock(id: string, start: int, end: int): Block {
    Block(id, start, end, false)
  }

  /** What the input form lets through: a non-negative arrival and a positive burst. */
  predicate Admissible(p: Process) {
    p.arrival >= 0 && p.burst > 0
  }

  predicate AllAdmissible(ps: seq<Process>) {
    forall i :: 0 <= i < |ps| ==> Admissible(ps[i])
  }

  predicate UniqueIds(ps: seq<Process>) {
    forall i, j :: 0 <= i < j < |ps| ==> ps[i].id != ps[j].id
  }

  /** No index occurs twice. */
  predicate Distinct(s: seq<nat>) {
    forall i, j :: 0 <= i < j < |s| ==> s[i] != s[j]
  }

  /** The row repeats the process's id, arrival and burst. */
  predicate Echoes(r: Row, p: Process) {
    r.id == p.id && r.arrival == p.arrival && r.burst == p.burst
  }

  /** The metric identities of a dispatched row (FCFS and SJF). */
  predicate DispatchMetrics(r: Row) {
    r.start.Some? &&
    r.arrival <= r.start.value &&
    r.completion == r.start.value + r.burst &&
    r.turnaround == r.completion - r.arrival &&
    r.waiting == r.start.value - r.arrival &&
    r.waiting == r.turnaround - r.burst &&
    r.waiting >= 0
  }

  /** The blocks are back to back, each of positive length, from `from` to
      `to`. */
  predicate Covers(g: seq<Block>, from: int, to: int) {
    if g == [] then from == to
    else
      var last := g[|g| - 1];
      Covers(g[..|g| - 1], from, last.start) && last.start < last.end && last.end == to
  }

  /** Where a timeline ends: the end of its last block, or 0. */
  function EndTime(g: seq<Block>): int {
    if g == [] then 0 else g[|g| - 1].end
  }

  lemma CoversEndTime(g: seq<Block>, to: int)
    requires Covers(g, 0, to)
    ensures EndTime(g) == to
  {
  }

  lemma CoversExtend(g: seq<Block>, from: int, to: int, b: Block)
    requires Covers(g, from, to) && b.start == to && to < b.end
    ensures Covers(g + [b], from, b.end)
  {
    assert (g + [b])[..|g|] == g;
  }
}
