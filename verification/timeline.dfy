/** The Gantt timeline FCFS and SJF build: processes run one at a time to
    completion, with an idle block in front of a process whenever the CPU
    would otherwise wait for it. */
module Timeline {
  import opened Types

  predicate Dispatched(rows: seq<Row>) {
    forall i :: 0 <= i < |rows| ==> rows[i].start.Some?
  }

  /** The time the CPU is free again after `rows`, starting from 0. */
  function EndOf(rows: seq<Row>): int {
    if rows == [] then 0 else rows[|rows| - 1].completion
  }

  /** The blocks for one row dispatched when the CPU frees up at `from`: an
      idle block if the row starts later, then the row's busy block. */
  function Slot(from: int, r: Row): (s: seq<Block>)
    requires r.start.Some?
    ensures |s| == (if from < r.start.value then 2 else 1)
    ensures from < r.start.value ==> s[0] == IdleBlock(from, r.start.value)
    ensures s[|s| - 1] == BusyBlock(r.id, r.start.value, r.completion)
  {
    (if from < r.start.value then [IdleBlock(from, r.start.value)] else [])
      + [BusyBlock(r.id, r.start.value, r.completion)]
  }

  /** The blocks that running `rows` in sequence produces. */
  function DispatchTimeline(rows: seq<Row>): (d: seq<Block>)
    requires Dispatched(rows)
    ensures |rows| <= |d| <= 2 * |rows|
  {
    if rows == [] then []
    else
      var prev := rows[..|rows| - 1];
      DispatchTimeline(prev) + Slot(EndOf(prev), rows[|rows| - 1])
  }

  lemma DispatchTimelineAppend(rows: seq<Row>, r: Row)
    requires Dispatched(rows) && r.start.Some?
    ensures Dispatched(rows + [r])
    ensures DispatchTimeline(rows + [r]) == DispatchTimeline(rows) + Slot(EndOf(rows), r)
  {
    assert (rows + [r])[..|rows|] == rows;
  }

  lemma CoversSlot(g: seq<Block>, from: int, r: Row)
    requires r.start.Some? && Covers(g, 0, from) && from <= r.start.value < r.completion
    ensures Covers(g + Slot(from, r), 0, r.completion)
  {
    var busy := BusyBlock(r.id, r.start.value, r.completion);
    if from < r.start.value {
      var idle := IdleBlock(from, r.start.value);
      CoversExtend(g, 0, from, idle);
      CoversExtend(g + [idle], 0, r.start.value, busy);
      assert g + Slot(from, r) == g + [idle] + [busy];
    } else {
      CoversExtend(g, 0, from, busy);
    }
  }

  /** Each row starts once the previous one has completed (the first at time 0
      or later) and runs for a positive time. */
  predicate Chronological(rows: seq<Row>) {
    if rows == [] then true
    else
      var prev, r := rows[..|rows| - 1], rows[|rows| - 1];
      Chronological(prev) && r.start.Some? && EndOf(prev) <= r.start.value < r.completion
  }

  lemma {:induction false} ChronologicalDispatched(rows: seq<Row>)
    requires Chronological(rows)
    ensures Dispatched(rows)
  {
    if rows != [] {
      ChronologicalDispatched(rows[..|rows| - 1]);
      assert forall i :: 0 <= i < |rows| - 1 ==> rows[i] == rows[..|rows| - 1][i];
    }
  }

  /** The timeline of a chronological dispatch sequence covers the time from 0
      to the last completion without gap or overlap, and that last completion
      is the largest one. */
  lemma {:induction false} DispatchTimelineCovers(rows: seq<Row>)
    requires Chronological(rows)
    ensures Dispatched(rows)
    ensures Covers(DispatchTimeline(rows), 0, EndOf(rows))
    ensures forall i :: 0 <= i < |rows| ==> rows[i].completion <= EndOf(rows)
  {
    ChronologicalDispatched(rows);
    if rows != [] {
      var n := |rows|;
      var prev, r := rows[..n - 1], rows[n - 1];
      DispatchTimelineCovers(prev);
      CoversSlot(DispatchTimeline(prev), EndOf(prev), r);
      forall i | 0 <= i < n ensures rows[i].completion <= EndOf(rows) {
        if i < n - 1 {
          assert rows[i] == prev[i];
        }
      }
    }
  }

  /** The non-idle blocks of a timeline, in order. */
  function BusyBlocks(g: seq<Block>): seq<Block> {
    if g == [] then []
    else BusyBlocks(g[..|g| - 1]) + (if g[|g| - 1].isIdle then [] else [g[|g| - 1]])
  }

  lemma {:induction false} BusyBlocksAppend(g: seq<Block>, h: seq<Block>)
    ensures BusyBlocks(g + h) == BusyBlocks(g) + BusyBlocks(h)
    decreases |h|
  {
    if h != [] {
      var gh := g + h;
      assert gh[..|gh| - 1] == g + h[..|h| - 1];
      BusyBlocksAppend(g, h[..|h| - 1]);
    } else {
      assert g + h == g;
    }
  }

  /** The busy blocks of a dispatch timeline, in order, are exactly the rows'
      [start, completion) intervals: one block per row. */
  lemma {:induction false} DispatchTimelineBusy(rows: seq<Row>)
    requires Dispatched(rows)
    ensures |BusyBlocks(DispatchTimeline(rows))| == |rows|
    ensures forall i :: 0 <= i < |rows| ==>
      BusyBlocks(DispatchTimeline(rows))[i] == BusyBlock(rows[i].id, rows[i].start.value, rows[i].completion)
  {
    if rows != [] {
      var n := |rows|;
      var prev, r := rows[..n - 1], rows[n - 1];
      DispatchTimelineBusy(prev);
      var g, slot := DispatchTimeline(prev), Slot(EndOf(prev), r);
      BusyBlocksAppend(g, slot);
      SlotBusy(EndOf(prev), r);
      var busy := BusyBlocks(DispatchTimeline(rows));
      assert busy == BusyBlocks(g) + [BusyBlock(r.id, r.start.value, r.completion)];
      forall i | 0 <= i < n ensures busy[i] == BusyBlock(rows[i].id, rows[i].start.value, rows[i].completion) {
        if i < n - 1 {
          assert rows[i] == prev[i] && busy[i] == BusyBlocks(g)[i];
        }
      }
    }
  }

  lemma SlotBusy(from: int, r: Row)
    requires r.start.Some?
    ensures BusyBlocks(Slot(from, r)) == [BusyBlock(r.id, r.start.value, r.completion)]
  {
    var busy := [BusyBlock(r.id, r.start.value, r.completion)];
    assert busy[..0] == [];
    if from < r.start.value {
      var idle := [IdleBlock(from, r.start.value)];
      assert idle[..0] == [];
      BusyBlocksAppend(idle, busy);
    }
  }
}
