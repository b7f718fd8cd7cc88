/** Round-Robin: a FIFO ready queue of the admitted processes, each served
    for at most one quantum at a time on a working copy of the list sorted by
    (arrival, order), with an arrival cursor and a table of completion times. */
module RoundRobin {
  import opened Types
  import opened Sorting

  /** The indices a, a + 1, .., b - 1. */
  function Span(a: nat, b: nat): seq<nat>
    requires a <= b
  {
    seq(b - a, j => a + j)
  }

  /** Where the admission loop stops: the first position at or after `qi`
      whose process has not arrived by `t`, or the end of the list. */
  function NextCursor(queue: seq<Process>, qi: nat, t: int): (r: nat)
    requires qi <= |queue|
    ensures qi <= r <= |queue|
    ensures forall k :: qi <= k < r ==> queue[k].arrival <= t
    ensures r == |queue| || queue[r].arrival > t
    decreases |queue| - qi
  {
    if qi == |queue| || queue[qi].arrival > t then qi else NextCursor(queue, qi + 1, t)
  }

  /** The admission loop: every process from the cursor on that has arrived by
      `t` joins the back of the ready queue, in list order. */
  method Admit(queue: seq<Process>, ready: seq<nat>, qi: nat, t: int) returns (ready': seq<nat>, qi': nat)
    requires qi <= |queue|
    ensures qi' == NextCursor(queue, qi, t)
    ensures ready' == ready + Span(qi, qi')
  {
    ready', qi' := ready, qi;
    while qi' < |queue| && queue[qi'].arrival <= t
      invariant qi <= qi' <= |queue|
      invariant NextCursor(queue, qi', t) == NextCursor(queue, qi, t)
      invariant ready' == ready + Span(qi, qi')
      decreases |queue| - qi'
    {
      ready' := ready' + [qi'];
      qi' := qi' + 1;
    }
  }

  /** The total work still to do. */
  function TotalRemaining(queue: seq<Process>): int {
    if queue == [] then 0
    else TotalRemaining(queue[..|queue| - 1]) + queue[|queue| - 1].remainingBurst
  }

  lemma {:induction false} TotalRemainingNonNegative(queue: seq<Process>)
    requires forall i :: 0 <= i < |queue| ==> queue[i].remainingBurst >= 0
    ensures TotalRemaining(queue) >= 0
  {
    if queue != [] {
      TotalRemainingNonNegative(queue[..|queue| - 1]);
    }
  }

  /** Setting one process's remaining burst changes the total by the difference. */
  lemma {:induction false} TotalRemainingUpdate(queue: seq<Process>, p: nat, v: int)
    requires p < |queue|
    ensures TotalRemaining(queue[p := queue[p].(remainingBurst := v)]) ==
            TotalRemaining(queue) - queue[p].remainingBurst + v
  {
    var n := |queue| - 1;
    var queue' := queue[p := queue[p].(remainingBurst := v)];
    assert queue'[..n] == if p < n then queue[..n][p := queue[p].(remainingBurst := v)] else queue[..n];
    if p < n {
      TotalRemainingUpdate(queue[..n], p, v);
    }
  }

  /** The time the process `id` has held the CPU in timeline `g`. */
  function SliceTotal(g: seq<Block>, id: string): int {
    if g == [] then 0
    else
      var b := g[|g| - 1];
      SliceTotal(g[..|g| - 1], id) + (if !b.isIdle && b.id == id then b.end - b.start else 0)
  }

  /** The end of the last slice of process `id` in timeline `g`, if any. */
  function LastSliceEnd(g: seq<Block>, id: string): Option<int> {
    if g == [] then None
    else
      var b := g[|g| - 1];
      if !b.isIdle && b.id == id then Some(b.end) else LastSliceEnd(g[..|g| - 1], id)
  }

  lemma AppendBlock(g: seq<Block>, b: Block, id: string)
    ensures SliceTotal(g + [b], id) == SliceTotal(g, id) + (if !b.isIdle && b.id == id then b.end - b.start else 0)
    ensures LastSliceEnd(g + [b], id) == if !b.isIdle && b.id == id then Some(b.end) else LastSliceEnd(g, id)
  {
    assert (g + [b])[..|g|] == g;
  }

  /** Same process, whatever its remaining burst. */
  predicate SameJob(a: Process, b: Process) {
    a.id == b.id && a.arrival == b.arrival && a.burst == b.burst && a.order == b.order
  }

  /** The working copy keeps every process of the sorted list `init` in
      place; only the remaining burst moves, and it stays within [0, burst]. */
  predicate Jobs(init: seq<Process>, queue: seq<Process>) {
    |queue| == |init| &&
    forall i :: 0 <= i < |queue| ==>
      SameJob(queue[i], init[i]) && 0 <= queue[i].remainingBurst <= queue[i].burst
  }

  lemma JobsUnique(init: seq<Process>, queue: seq<Process>)
    requires Jobs(init, queue) && UniqueIds(init)
    ensures UniqueIds(queue)
  {
    forall i, j | 0 <= i < j < |queue| ensures queue[i].id != queue[j].id {
      assert queue[i].id == init[i].id && queue[j].id == init[j].id;
    }
  }

  /** The processes before the cursor have arrived, and each has been served
      only after its arrival; the ones from the cursor on have not been served. */
  predicate Cursor(queue: seq<Process>, qi: nat, t: int) {
    qi <= |queue| &&
    (forall i :: 0 <= i < qi ==> queue[i].arrival + (queue[i].burst - queue[i].remainingBurst) <= t) &&
    (forall i :: qi <= i < |queue| ==> queue[i].remainingBurst == queue[i].burst)
  }

  /** The ready queue holds, once each, exactly the admitted processes with
      work left. */
  predicate ReadyQueue(queue: seq<Process>, ready: seq<nat>, qi: nat)
    requires qi <= |queue|
  {
    Distinct(ready) &&
    (forall j :: 0 <= j < |ready| ==> ready[j] < qi && queue[ready[j]].remainingBurst > 0) &&
    (forall i :: 0 <= i < qi && queue[i].remainingBurst > 0 ==> i in ready)
  }

  /** The timeline runs from 0 to `t` without gap or overlap, and no slice
      is longer than the quantum. */
  predicate Slices(q: int, gantt: seq<Block>, t: int) {
    Covers(gantt, 0, t) &&
    forall j :: 0 <= j < |gantt| && !gantt[j].isIdle ==> gantt[j].end - gantt[j].start <= q
  }

  /** Each process's slices add up to the work done on it. */
  predicate Work(queue: seq<Process>, gantt: seq<Block>) {
    forall i :: 0 <= i < |queue| ==>
      SliceTotal(gantt, queue[i].id) == queue[i].burst - queue[i].remainingBurst
  }

  /** A completion time is recorded exactly for the processes with no work
      left: the end of their last slice, no earlier than arrival plus burst. */
  predicate Completions(queue: seq<Process>, gantt: seq<Block>, ct: map<string, int>, t: int) {
    forall i :: 0 <= i < |queue| ==>
      (queue[i].id in ct <==> queue[i].remainingBurst == 0) &&
      (queue[i].id in ct ==>
        LastSliceEnd(gantt, queue[i].id) == Some(ct[queue[i].id]) &&
        queue[i].arrival + queue[i].burst <= ct[queue[i].id] <= t)
  }

  /** Idle block `b` waits for the next arrival: a process arrives at its
      end, none strictly inside it, and every process that had arrived by its
      start had completed by then. */
  predicate IdleWait(ps: seq<Process>, ct: map<string, int>, b: Block) {
    (exists i :: 0 <= i < |ps| && ps[i].arrival == b.end) &&
    (forall i :: 0 <= i < |ps| && b.start < ps[i].arrival ==> b.end <= ps[i].arrival) &&
    (forall i :: 0 <= i < |ps| && ps[i].arrival <= b.start ==>
      ps[i].id in ct && ct[ps[i].id] <= b.start)
  }

  predicate IdleWaits(ps: seq<Process>, ct: map<string, int>, gantt: seq<Block>) {
    forall j :: 0 <= j < |gantt| && gantt[j].isIdle ==> IdleWait(ps, ct, gantt[j])
  }

  /** Recorded completion times never change, so waits stay justified. */
  lemma IdleWaitsGrow(ps: seq<Process>, ct: map<string, int>, ct': map<string, int>, gantt: seq<Block>)
    requires IdleWaits(ps, ct, gantt)
    requires forall id :: id in ct ==> id in ct' && ct'[id] == ct[id]
    ensures IdleWaits(ps, ct', gantt)
  {
  }

  /** The state of the round-robin loop: `init` is the sorted list, `queue`
      its working copy, `ready` the ready queue, `qi` the arrival cursor, `t`
      the clock, `gantt` the timeline and `ct` the completion times. */
  ghost predicate RrState(q: int, init: seq<Process>, queue: seq<Process>, ready: seq<nat>, qi: nat,
                          t: int, gantt: seq<Block>, ct: map<string, int>)
  {
    UniqueIds(init) && SortedByArrival(init) && AllAdmissible(init) &&
    Jobs(init, queue) && Cursor(queue, qi, t) && ReadyQueue(queue, ready, qi) &&
    Slices(q, gantt, t) && Work(queue, gantt) && Completions(queue, gantt, ct, t) &&
    IdleWaits(init, ct, gantt)
  }

  /** Admitting the arrived processes keeps the loop state. */
  lemma AdmitKeeps(q: int, init: seq<Process>, queue: seq<Process>, ready: seq<nat>, qi: nat,
                   t: int, gantt: seq<Block>, ct: map<string, int>)
    requires RrState(q, init, queue, ready, qi, t, gantt, ct)
    ensures var qa := NextCursor(queue, qi, t);
      RrState(q, init, queue, ready + Span(qi, qa), qa, t, gantt, ct)
  {
    var qa := NextCursor(queue, qi, t);
    var span := Span(qi, qa);
    var ready' := ready + span;
    forall i, j | 0 <= i < j < |ready'| ensures ready'[i] != ready'[j] {
      if j < |ready| {
        assert ready'[i] == ready[i] && ready'[j] == ready[j];
      } else if i >= |ready| {
        assert ready'[i] == span[i - |ready|] && ready'[j] == span[j - |ready|];
      } else {
        assert ready'[i] == ready[i] && ready'[j] == span[j - |ready|];
      }
    }
    forall j | 0 <= j < |ready'| ensures ready'[j] < qa && queue[ready'[j]].remainingBurst > 0 {
      if j >= |ready| {
        var i := ready'[j];
        assert i == span[j - |ready|];
        assert Admissible(init[i]);
      } else {
        assert ready'[j] == ready[j];
      }
    }
    forall i | 0 <= i < qa && queue[i].remainingBurst > 0 ensures i in ready' {
      if i >= qi {
        assert ready'[|ready| + i - qi] == i;
      } else {
        assert i in ready;
      }
    }
  }

  /** With nothing ready, idling up to the arrival at the cursor keeps the
      loop state. */
  lemma IdleKeeps(q: int, init: seq<Process>, queue: seq<Process>, qi: nat,
                  t: int, gantt: seq<Block>, ct: map<string, int>)
    requires RrState(q, init, queue, [], qi, t, gantt, ct)
    requires qi < |queue| && t < queue[qi].arrival
    ensures RrState(q, init, queue, [], qi, queue[qi].arrival, gantt + [IdleBlock(t, queue[qi].arrival)], ct)
  {
    var next := queue[qi].arrival;
    var idle := IdleBlock(t, next);
    var gantt' := gantt + [idle];
    CoversExtend(gantt, 0, t, idle);
    forall id ensures SliceTotal(gantt', id) == SliceTotal(gantt, id) && LastSliceEnd(gantt', id) == LastSliceEnd(gantt, id) {
      AppendBlock(gantt, idle, id);
    }
    assert init[qi].arrival == next;
    forall i | 0 <= i < |init| && t < init[i].arrival ensures next <= init[i].arrival {
      if i > qi {
        assert ArrivalFirst(init[qi], init[i]);
      }
    }
    forall i | 0 <= i < |init| && init[i].arrival <= t ensures init[i].id in ct && ct[init[i].id] <= t {
    }
    assert IdleWait(init, ct, idle);
    forall j | 0 <= j < |gantt'| && gantt'[j].isIdle ensures IdleWait(init, ct, gantt'[j]) {
      if j < |gantt| {
        assert gantt'[j] == gantt[j];
      }
    }
    forall j | 0 <= j < |gantt'| && !gantt'[j].isIdle ensures gantt'[j].end - gantt'[j].start <= q {
      assert gantt'[j] == gantt[j];
    }
  }

  /** The working copy after serving process `p` for `e` time units. */
  function Served(queue: seq<Process>, p: nat, e: int): (queue': seq<Process>)
    requires p < |queue|
    ensures |queue'| == |queue| && queue'[p].remainingBurst == queue[p].remainingBurst - e
    ensures forall i :: 0 <= i < |queue| && i != p ==> queue'[i] == queue[i]
    ensures forall i :: 0 <= i < |queue| ==> SameJob(queue'[i], queue[i])
  {
    queue[p := queue[p].(remainingBurst := queue[p].remainingBurst - e)]
  }

  lemma SliceCursor(queue: seq<Process>, qa: nat, t: int, p: nat, t': int, queue': seq<Process>, qb: nat)
    requires Cursor(queue, qa, t) && p < qa && 0 < t' - t <= queue[p].remainingBurst
    requires queue' == Served(queue, p, t' - t) && qb == NextCursor(queue', qa, t')
    ensures Cursor(queue', qb, t')
  {
  }

  /** The ready queue after a slice: the rest of the queue, then the
      processes that arrived during the slice, then the served process if it
      has work left. */
  function Requeue(r0: seq<nat>, qa: nat, qb: nat, more: bool): (r: seq<nat>)
    requires |r0| > 0 && qa <= qb
    ensures |r| == |r0| - 1 + (qb - qa) + (if more then 1 else 0)
    ensures r[..|r0| - 1] == r0[1..] && r[|r0| - 1..|r0| - 1 + (qb - qa)] == Span(qa, qb)
    ensures more ==> r[|r| - 1] == r0[0]
  {
    r0[1..] + Span(qa, qb) + (if more then [r0[0]] else [])
  }

  /** Every entry of the new ready queue is admitted and has work left. */
  lemma RequeueBounds(queue: seq<Process>, r0: seq<nat>, qa: nat, t: int, t': int,
                      queue': seq<Process>, qb: nat, ready': seq<nat>)
    requires qa <= |queue| && ReadyQueue(queue, r0, qa) && |r0| > 0
    requires forall i :: qa <= i < |queue| ==> queue[i].remainingBurst > 0
    requires 0 < t' - t <= queue[r0[0]].remainingBurst
    requires queue' == Served(queue, r0[0], t' - t) && qb == NextCursor(queue', qa, t')
    requires ready' == Requeue(r0, qa, qb, queue'[r0[0]].remainingBurst > 0)
    ensures forall j :: 0 <= j < |ready'| ==> ready'[j] < qb && queue'[ready'[j]].remainingBurst > 0
  {
    var p := r0[0];
    var rest, span := r0[1..], Span(qa, qb);
    var tail := if queue'[p].remainingBurst > 0 then [p] else [];
    assert ready' == rest + span + tail;
    assert forall j :: 0 <= j < |rest| ==> rest[j] == r0[j + 1];
    forall j | 0 <= j < |ready'| ensures ready'[j] < qb && queue'[ready'[j]].remainingBurst > 0 {
      if j < |rest| {
        assert ready'[j] == r0[j + 1] != p;
      } else if j < |rest| + |span| {
        assert ready'[j] == span[j - |rest|];
      } else {
        assert ready'[j] == p;
      }
    }
  }

  /** No process is queued twice after a slice. */
  lemma RequeueDistinct(queue: seq<Process>, r0: seq<nat>, qa: nat, t: int, t': int,
                        queue': seq<Process>, qb: nat, ready': seq<nat>)
    requires qa <= |queue| && ReadyQueue(queue, r0, qa) && |r0| > 0
    requires forall i :: qa <= i < |queue| ==> queue[i].remainingBurst > 0
    requires 0 < t' - t <= queue[r0[0]].remainingBurst
    requires queue' == Served(queue, r0[0], t' - t) && qb == NextCursor(queue', qa, t')
    requires ready' == Requeue(r0, qa, qb, queue'[r0[0]].remainingBurst > 0)
    ensures Distinct(ready')
  {
    var p := r0[0];
    var rest, span := r0[1..], Span(qa, qb);
    var tail := if queue'[p].remainingBurst > 0 then [p] else [];
    assert ready' == rest + span + tail;
    assert forall j :: 0 <= j < |rest| ==> rest[j] == r0[j + 1];
    forall i, j | 0 <= i < j < |ready'| ensures ready'[i] != ready'[j] {
      if j < |rest| {
        assert ready'[i] == r0[i + 1] && ready'[j] == r0[j + 1];
      } else if j < |rest| + |span| {
        assert ready'[j] == span[j - |rest|] >= qa;
        if i >= |rest| {
          assert ready'[i] == span[i - |rest|];
        }
      } else {
        assert ready'[j] == p;
        if i < |rest| {
          assert ready'[i] == r0[i + 1];
        } else {
          assert ready'[i] == span[i - |rest|];
        }
      }
    }
  }

  /** Every admitted process with work left is queued after a slice. */
  lemma RequeueComplete(queue: seq<Process>, r0: seq<nat>, qa: nat, t: int, t': int,
                        queue': seq<Process>, qb: nat, ready': seq<nat>)
    requires qa <= |queue| && ReadyQueue(queue, r0, qa) && |r0| > 0
    requires forall i :: qa <= i < |queue| ==> queue[i].remainingBurst > 0
    requires 0 < t' - t <= queue[r0[0]].remainingBurst
    requires queue' == Served(queue, r0[0], t' - t) && qb == NextCursor(queue', qa, t')
    requires ready' == Requeue(r0, qa, qb, queue'[r0[0]].remainingBurst > 0)
    ensures forall i :: 0 <= i < qb && queue'[i].remainingBurst > 0 ==> i in ready'
  {
    var p := r0[0];
    var rest, span := r0[1..], Span(qa, qb);
    var tail := if queue'[p].remainingBurst > 0 then [p] else [];
    assert ready' == rest + span + tail;
    forall i | 0 <= i < qb && queue'[i].remainingBurst > 0 ensures i in ready' {
      if i == p {
        assert ready'[|ready'| - 1] == p;
      } else if i < qa {
        assert i in r0;
        var j :| 0 <= j < |r0| && r0[j] == i;
        assert ready'[j - 1] == i;
      } else {
        assert ready'[|rest| + i - qa] == i;
      }
    }
  }

  lemma SliceReady(queue: seq<Process>, r0: seq<nat>, qa: nat, t: int, t': int,
                   queue': seq<Process>, qb: nat, ready': seq<nat>)
    requires qa <= |queue| && ReadyQueue(queue, r0, qa) && |r0| > 0
    requires forall i :: qa <= i < |queue| ==> queue[i].remainingBurst > 0
    requires 0 < t' - t <= queue[r0[0]].remainingBurst
    requires queue' == Served(queue, r0[0], t' - t) && qb == NextCursor(queue', qa, t')
    requires ready' == Requeue(r0, qa, qb, queue'[r0[0]].remainingBurst > 0)
    ensures ReadyQueue(queue', ready', qb)
  {
    RequeueBounds(queue, r0, qa, t, t', queue', qb, ready');
    RequeueDistinct(queue, r0, qa, t, t', queue', qb, ready');
    RequeueComplete(queue, r0, qa, t, t', queue', qb, ready');
  }

  lemma SliceTimeline(q: int, gantt: seq<Block>, t: int, e: int, id: string)
    requires Slices(q, gantt, t) && 0 < e <= q
    ensures Slices(q, gantt + [BusyBlock(id, t, t + e)], t + e)
  {
    var b := BusyBlock(id, t, t + e);
    CoversExtend(gantt, 0, t, b);
    var gantt' := gantt + [b];
    forall j | 0 <= j < |gantt'| && !gantt'[j].isIdle ensures gantt'[j].end - gantt'[j].start <= q {
      if j < |gantt| {
        assert gantt'[j] == gantt[j];
      }
    }
  }

  lemma SliceWork(queue: seq<Process>, gantt: seq<Block>, t: int, p: nat, t': int,
                  queue': seq<Process>, gantt': seq<Block>)
    requires Work(queue, gantt) && UniqueIds(queue) && p < |queue|
    requires queue' == Served(queue, p, t' - t) && gantt' == gantt + [BusyBlock(queue[p].id, t, t')]
    ensures Work(queue', gantt')
  {
    var b := BusyBlock(queue[p].id, t, t');
    forall i | 0 <= i < |queue| ensures SliceTotal(gantt', queue[i].id) ==
      SliceTotal(gantt, queue[i].id) + (if i == p then t' - t else 0)
    {
      AppendBlock(gantt, b, queue[i].id);
    }
  }

  /** The completion table after a slice: the end of the slice is recorded
      for the served process if it has finished. */
  function Record(ct: map<string, int>, id: string, t': int, more: bool): (m: map<string, int>)
    ensures m.Keys == if more then ct.Keys else ct.Keys + {id}
    ensures forall k :: k in ct && (more || k != id) ==> m[k] == ct[k]
    ensures !more ==> m[id] == t'
  {
    if more then ct else ct[id := t']
  }

  lemma SliceCompletions(queue: seq<Process>, gantt: seq<Block>, ct: map<string, int>, t: int, p: nat, t': int,
                         queue': seq<Process>, gantt': seq<Block>, ct': map<string, int>)
    requires Completions(queue, gantt, ct, t) && UniqueIds(queue) && p < |queue|
    requires 0 < t' - t <= queue[p].remainingBurst
    requires queue[p].arrival + (queue[p].burst - queue[p].remainingBurst) <= t
    requires queue' == Served(queue, p, t' - t) && gantt' == gantt + [BusyBlock(queue[p].id, t, t')]
    requires ct' == Record(ct, queue[p].id, t', queue'[p].remainingBurst > 0)
    ensures Completions(queue', gantt', ct', t')
  {
    var b := BusyBlock(queue[p].id, t, t');
    forall i | 0 <= i < |queue| ensures LastSliceEnd(gantt', queue[i].id) ==
      if i == p then Some(t') else LastSliceEnd(gantt, queue[i].id)
    {
      AppendBlock(gantt, b, queue[i].id);
    }
  }

  lemma SliceIdleWaits(ps: seq<Process>, ct: map<string, int>, gantt: seq<Block>, id: string, t: int, t': int,
                       more: bool, gantt': seq<Block>, ct': map<string, int>)
    requires IdleWaits(ps, ct, gantt) && id !in ct
    requires gantt' == gantt + [BusyBlock(id, t, t')] && ct' == Record(ct, id, t', more)
    ensures IdleWaits(ps, ct', gantt')
  {
    forall j | 0 <= j < |gantt'| && gantt'[j].isIdle ensures IdleWait(ps, ct, gantt'[j]) {
      assert gantt'[j] == gantt[j];
    }
    IdleWaitsGrow(ps, ct, ct', gantt');
  }

  /** `Math.min`. */
  function Min(a: int, b: int): int {
    if a < b then a else b
  }

  /** Serving the head of the ready queue for min(q, remaining) time units,
      admitting the processes that arrived meanwhile, then sending the served
      process to the back or recording its completion keeps the loop state. */
  lemma SliceKeeps(q: int, init: seq<Process>, queue: seq<Process>, r0: seq<nat>, qa: nat,
                   t: int, gantt: seq<Block>, ct: map<string, int>,
                   queue': seq<Process>, ready': seq<nat>, qb: nat, t': int,
                   gantt': seq<Block>, ct': map<string, int>)
    requires q > 0 && RrState(q, init, queue, r0, qa, t, gantt, ct) && |r0| > 0
    requires t' == t + Min(q, queue[r0[0]].remainingBurst)
    requires queue' == Served(queue, r0[0], t' - t) && qb == NextCursor(queue', qa, t')
    requires gantt' == gantt + [BusyBlock(queue[r0[0]].id, t, t')]
    requires ready' == Requeue(r0, qa, qb, queue'[r0[0]].remainingBurst > 0)
    requires ct' == Record(ct, queue[r0[0]].id, t', queue'[r0[0]].remainingBurst > 0)
    ensures RrState(q, init, queue', ready', qb, t', gantt', ct')
  {
    var p := r0[0];
    JobsUnique(init, queue);
    forall i | qa <= i < |queue| ensures queue[i].remainingBurst > 0 {
      assert Admissible(init[i]);
    }
    SliceCursor(queue, qa, t, p, t', queue', qb);
    SliceReady(queue, r0, qa, t, t', queue', qb, ready');
    SliceTimeline(q, gantt, t, t' - t, queue[p].id);
    SliceWork(queue, gantt, t, p, t', queue', gantt');
    SliceCompletions(queue, gantt, ct, t, p, t', queue', gantt', ct');
    SliceIdleWaits(init, ct, gantt, queue[p].id, t, t', queue'[p].remainingBurst > 0, gantt', ct');
    assert Jobs(init, queue');
  }

  /** The head of a non-empty ready queue is an admitted process with work left. */
  lemma HeadPending(q: int, init: seq<Process>, queue: seq<Process>, r0: seq<nat>, qa: nat,
                    t: int, gantt: seq<Block>, ct: map<string, int>)
    requires RrState(q, init, queue, r0, qa, t, gantt, ct) && |r0| > 0
    ensures r0[0] < qa <= |queue| && queue[r0[0]].remainingBurst > 0
  {
  }

  /** A configuration of the round-robin loop: the working copy, the ready
      queue, the arrival cursor, the clock, the timeline and the completion
      table. */
  datatype Conf = Conf(queue: seq<Process>, ready: seq<nat>, qi: nat, t: int,
                       gantt: seq<Block>, ct: map<string, int>)

  /** The loop test: some process is still to be admitted, or queued. */
  predicate Pass(c: Conf) {
    c.qi < |c.queue| || |c.ready| > 0
  }

  /** The cursor and the queued positions lie inside the working copy. */
  predicate Fits(c: Conf) {
    c.qi <= |c.queue| && forall j :: 0 <= j < |c.ready| ==> c.ready[j] < |c.queue|
  }

  /** One pass of the loop as a function of the configuration: admit, in
      list order, every process at the cursor that has arrived; if the ready
      queue is still empty, idle up to the arrival at the cursor; otherwise
      serve the head for min(q, remaining), admit the processes that arrived
      meanwhile, and then send the head to the back if it has work left, or
      record the end of the slice as its completion time. */
  function RrNext(q: int, c: Conf): (n: Conf)
    requires Fits(c) && Pass(c)
    ensures |n.queue| == |c.queue| && c.qi <= n.qi <= |n.queue|
    ensures |n.gantt| == |c.gantt| + 1 && n.gantt[..|c.gantt|] == c.gantt
    ensures n.gantt[|c.gantt|].start == c.t && n.gantt[|c.gantt|].end == n.t
    ensures n.gantt[|c.gantt|].isIdle ==> n.queue == c.queue && n.ready == [] && n.ct == c.ct
  {
    var qa := NextCursor(c.queue, c.qi, c.t);
    var r0 := c.ready + Span(c.qi, qa);
    if r0 == [] then
      var next := c.queue[qa].arrival;
      Conf(c.queue, [], qa, next, c.gantt + [IdleBlock(c.t, next)], c.ct)
    else
      var p := r0[0];
      var t' := c.t + Min(q, c.queue[p].remainingBurst);
      var queue' := Served(c.queue, p, t' - c.t);
      var qb := NextCursor(queue', qa, t');
      var more := queue'[p].remainingBurst > 0;
      Conf(queue', Requeue(r0, qa, qb, more), qb, t', c.gantt + [BusyBlock(c.queue[p].id, c.t, t')],
           Record(c.ct, c.queue[p].id, t', more))
  }

  /** With nothing ready after admission, a pass idles up to the arrival at
      the cursor. */
  lemma IdleNext(q: int, c: Conf)
    requires Fits(c) && Pass(c)
    requires c.ready + Span(c.qi, NextCursor(c.queue, c.qi, c.t)) == []
    ensures c.qi < |c.queue| && NextCursor(c.queue, c.qi, c.t) == c.qi
    ensures RrNext(q, c) == Conf(c.queue, [], c.qi, c.queue[c.qi].arrival,
                                 c.gantt + [IdleBlock(c.t, c.queue[c.qi].arrival)], c.ct)
  {
  }

  /** Otherwise a pass serves the head of the ready queue for one slice. */
  lemma SliceNext(q: int, c: Conf, qa: nat, r0: seq<nat>, n: Conf)
    requires Fits(c) && Pass(c) && n == RrNext(q, c)
    requires qa == NextCursor(c.queue, c.qi, c.t) && r0 == c.ready + Span(c.qi, qa) && r0 != []
    ensures r0[0] < |c.queue|
    ensures n.t == c.t + Min(q, c.queue[r0[0]].remainingBurst)
    ensures n.queue == Served(c.queue, r0[0], n.t - c.t) && n.qi == NextCursor(n.queue, qa, n.t)
    ensures n.gantt == c.gantt + [BusyBlock(c.queue[r0[0]].id, c.t, n.t)]
    ensures n.ready == Requeue(r0, qa, n.qi, n.queue[r0[0]].remainingBurst > 0)
    ensures n.ct == Record(c.ct, c.queue[r0[0]].id, n.t, n.queue[r0[0]].remainingBurst > 0)
  {
  }

  /** The idle pass keeps the loop state. */
  lemma IdleNextKeeps(q: int, init: seq<Process>, c: Conf)
    requires q > 0 && RrState(q, init, c.queue, c.ready, c.qi, c.t, c.gantt, c.ct) && Pass(c)
    requires c.ready + Span(c.qi, NextCursor(c.queue, c.qi, c.t)) == []
    ensures Fits(c)
    ensures var n := RrNext(q, c); RrState(q, init, n.queue, n.ready, n.qi, n.t, n.gantt, n.ct)
  {
    IdleNext(q, c);
    AdmitKeeps(q, init, c.queue, c.ready, c.qi, c.t, c.gantt, c.ct);
    IdleKeeps(q, init, c.queue, c.qi, c.t, c.gantt, c.ct);
  }

  /** The serving pass keeps the loop state. */
  lemma SliceNextKeeps(q: int, init: seq<Process>, c: Conf, qa: nat, r0: seq<nat>)
    requires q > 0 && RrState(q, init, c.queue, c.ready, c.qi, c.t, c.gantt, c.ct) && Pass(c)
    requires qa == NextCursor(c.queue, c.qi, c.t) && r0 == c.ready + Span(c.qi, qa) && r0 != []
    ensures Fits(c)
    ensures var n := RrNext(q, c); RrState(q, init, n.queue, n.ready, n.qi, n.t, n.gantt, n.ct)
  {
    var n := RrNext(q, c);
    SliceNext(q, c, qa, r0, n);
    AdmitKeeps(q, init, c.queue, c.ready, c.qi, c.t, c.gantt, c.ct);
    SliceKeeps(q, init, c.queue, r0, qa, c.t, c.gantt, c.ct, n.queue, n.ready, n.qi, n.t, n.gantt, n.ct);
  }

  /** A pass keeps the loop state. */
  lemma NextKeeps(q: int, init: seq<Process>, c: Conf)
    requires q > 0 && RrState(q, init, c.queue, c.ready, c.qi, c.t, c.gantt, c.ct) && Pass(c)
    ensures Fits(c)
    ensures var n := RrNext(q, c); RrState(q, init, n.queue, n.ready, n.qi, n.t, n.gantt, n.ct)
  {
    var qa := NextCursor(c.queue, c.qi, c.t);
    if c.ready + Span(c.qi, qa) == [] {
      IdleNextKeeps(q, init, c);
    } else {
      SliceNextKeeps(q, init, c, qa, c.ready + Span(c.qi, qa));
    }
  }

  /** A pass either lowers the work left or idles until the process at the
      cursor has arrived. */
  lemma NextProgress(q: int, init: seq<Process>, c: Conf)
    requires q > 0 && RrState(q, init, c.queue, c.ready, c.qi, c.t, c.gantt, c.ct) && Pass(c)
    ensures Fits(c)
    ensures var n := RrNext(q, c);
      TotalRemaining(n.queue) < TotalRemaining(c.queue) ||
        (n.queue == c.queue && !(c.qi < |c.queue| && c.queue[c.qi].arrival <= c.t) &&
         n.qi < |n.queue| && n.queue[n.qi].arrival <= n.t)
  {
    var qa := NextCursor(c.queue, c.qi, c.t);
    var r0 := c.ready + Span(c.qi, qa);
    AdmitKeeps(q, init, c.queue, c.ready, c.qi, c.t, c.gantt, c.ct);
    if r0 == [] {
      IdleNext(q, c);
    } else {
      HeadPending(q, init, c.queue, r0, qa, c.t, c.gantt, c.ct);
      SliceProgress(q, c, qa, r0, RrNext(q, c));
    }
  }

  /** A slice takes a positive amount of work off the process it serves. */
  lemma SliceProgress(q: int, c: Conf, qa: nat, r0: seq<nat>, n: Conf)
    requires q > 0 && Fits(c) && Pass(c) && n == RrNext(q, c)
    requires qa == NextCursor(c.queue, c.qi, c.t) && r0 == c.ready + Span(c.qi, qa) && r0 != []
    requires r0[0] < |c.queue| && c.queue[r0[0]].remainingBurst > 0
    ensures TotalRemaining(n.queue) < TotalRemaining(c.queue)
  {
    SliceNext(q, c, qa, r0, n);
    var p := r0[0];
    TotalRemainingUpdate(c.queue, p, c.queue[p].remainingBurst - (n.t - c.t));
  }

  /** A pass after which the loop stops is a slice that completes the
      process it serves, at the end of the slice. */
  lemma LastPass(q: int, c: Conf) returns (k: nat)
    requires Fits(c) && Pass(c) && !Pass(RrNext(q, c))
    ensures var n := RrNext(q, c);
      k < |n.queue| && n.queue[k].id in n.ct && n.ct[n.queue[k].id] == n.t
  {
    var qa := NextCursor(c.queue, c.qi, c.t);
    var r0 := c.ready + Span(c.qi, qa);
    if r0 == [] {
      IdleNext(q, c);
      assert false;
    }
    var n := RrNext(q, c);
    SliceNext(q, c, qa, r0, n);
    var p := r0[0];
    assert n.queue[p].id == c.queue[p].id;
    assert n.ready == [];
    assert n.queue[p].remainingBurst <= 0;
    assert n.ct == c.ct[c.queue[p].id := n.t];
    k := p;
  }

  /** The head of the ready queue runs for min(q, remaining); the processes
      that arrived during the slice join the queue, and only then does the
      served process go to the back, unless it has finished, in which case
      its completion time is the end of the slice. A slice of a process with
      work left lowers the total remaining work. */
  method Slice(q: int, queue: seq<Process>, r0: seq<nat>, qa: nat, t: int, gantt: seq<Block>, ct: map<string, int>)
    returns (queue': seq<Process>, ready': seq<nat>, qi': nat, t': int, gantt': seq<Block>, ct': map<string, int>)
    requires |r0| > 0 && r0[0] < |queue| && qa <= |queue|
    ensures t' == t + Min(q, queue[r0[0]].remainingBurst)
    ensures gantt' == gantt + [BusyBlock(queue[r0[0]].id, t, t')]
    ensures queue' == Served(queue, r0[0], t' - t) && qi' == NextCursor(queue', qa, t')
    ensures ready' == Requeue(r0, qa, qi', queue'[r0[0]].remainingBurst > 0)
    ensures ct' == Record(ct, queue[r0[0]].id, t', queue'[r0[0]].remainingBurst > 0)
    ensures q > 0 && queue[r0[0]].remainingBurst > 0 ==> TotalRemaining(queue') < TotalRemaining(queue)
  {
    var p := r0[0];
    var proc := queue[p];
    var executeTime := Min(q, proc.remainingBurst);
    var startTime := t;
    var endTime := startTime + executeTime;
    gantt' := gantt + [BusyBlock(proc.id, startTime, endTime)];
    queue' := queue[p := proc.(remainingBurst := proc.remainingBurst - executeTime)];
    t' := endTime;
    TotalRemainingUpdate(queue, p, proc.remainingBurst - executeTime);
    var r1;
    r1, qi' := Admit(queue', r0[1..], qa, t');
    if queue'[p].remainingBurst > 0 {
      ready', ct' := r1 + [p], ct;
    } else {
      ready', ct' := r1, ct[proc.id := t'];
    }
  }

  /** One pass of the round-robin loop: admit the arrived processes; if the
      ready queue is still empty, idle up to the next arrival, otherwise run
      one slice. The new configuration is the one `RrNext` gives. */
  method Advance(q: int, queue: seq<Process>, ready: seq<nat>, qi: nat,
                 t: int, gantt: seq<Block>, ct: map<string, int>)
    returns (queue': seq<Process>, ready': seq<nat>, qi': nat, t': int, gantt': seq<Block>, ct': map<string, int>)
    requires Fits(Conf(queue, ready, qi, t, gantt, ct)) && Pass(Conf(queue, ready, qi, t, gantt, ct))
    ensures Conf(queue', ready', qi', t', gantt', ct') == RrNext(q, Conf(queue, ready, qi, t, gantt, ct))
  {
    var r0, qa := Admit(queue, ready, qi, t);
    if |r0| == 0 {
      var nextArrival := queue[qa].arrival;
      return queue, [], qa, nextArrival, gantt + [IdleBlock(t, nextArrival)], ct;
    }
    queue', ready', qi', t', gantt', ct' := Slice(q, queue, r0, qa, t, gantt, ct);
  }

  /** The configuration the loop starts from. */
  function Start(queue: seq<Process>): Conf {
    Conf(queue, [], 0, 0, [], map[])
  }

  /** Where the loop stops when it starts from `c`: the configuration that
      repeating `RrNext` while the loop test holds reaches. Each pass takes
      work off a process, or idles up to an arrival that the next pass then
      admits, so the loop stops; it stops with every process admitted and
      the ready queue empty. */
  ghost function Final(q: int, init: seq<Process>, c: Conf): (f: Conf)
    requires q > 0 && RrState(q, init, c.queue, c.ready, c.qi, c.t, c.gantt, c.ct)
    ensures !Pass(f)
    decreases TotalRemaining(c.queue), if c.qi < |c.queue| && c.queue[c.qi].arrival <= c.t then 0 else 1
  {
    if !Pass(c) then c
    else
      NextKeeps(q, init, c);
      NextProgress(q, init, c);
      RrStateRemaining(q, init, c.queue, c.ready, c.qi, c.t, c.gantt, c.ct);
      Final(q, init, RrNext(q, c))
  }

  /** The working copy: the sorted list with each remaining burst reset to
      the full burst. */
  function WorkingCopy(sorted: seq<Process>): (w: seq<Process>)
    ensures |w| == |sorted|
    ensures forall i :: 0 <= i < |w| ==> SameJob(w[i], sorted[i]) && w[i].remainingBurst == w[i].burst
  {
    seq(|sorted|, i requires 0 <= i < |sorted| => sorted[i].(remainingBurst := sorted[i].burst))
  }

  /** The loop starts at time 0 with an empty timeline, nothing admitted and
      nothing completed. */
  lemma InitState(q: int, sorted: seq<Process>, init: seq<Process>)
    requires SortedByArrival(sorted) && UniqueIds(sorted) && AllAdmissible(sorted)
    requires init == WorkingCopy(sorted)
    ensures RrState(q, init, init, [], 0, 0, [], map[])
  {
    assert forall i :: 0 <= i < |init| ==> SameJob(init[i], sorted[i]);
  }

  lemma RrStateRemaining(q: int, init: seq<Process>, queue: seq<Process>, ready: seq<nat>, qi: nat,
                         t: int, gantt: seq<Block>, ct: map<string, int>)
    requires RrState(q, init, queue, ready, qi, t, gantt, ct)
    ensures TotalRemaining(queue) >= 0
  {
    TotalRemainingNonNegative(queue);
  }

  /** Every completion time in `ct` of a process of `init` is at most
      `end`, and one of them is `end`. */
  ghost predicate EndsAt(init: seq<Process>, ct: map<string, int>, end: int) {
    (forall k :: 0 <= k < |init| ==> init[k].id in ct && ct[init[k].id] <= end) &&
    (|init| > 0 ==> exists k :: 0 <= k < |init| && init[k].id in ct && ct[init[k].id] == end)
  }

  /** When the loop stops every process has completed: its slices add up to
      its burst and its completion time is the end of its last slice. */
  lemma RrDone(q: int, init: seq<Process>, queue: seq<Process>, ready: seq<nat>, qi: nat,
               t: int, gantt: seq<Block>, ct: map<string, int>)
    requires RrState(q, init, queue, ready, qi, t, gantt, ct) && qi == |queue| && ready == []
    ensures forall k :: 0 <= k < |init| ==>
      init[k].id in ct && init[k].arrival + init[k].burst <= ct[init[k].id] &&
      SliceTotal(gantt, init[k].id) == init[k].burst &&
      LastSliceEnd(gantt, init[k].id) == Some(ct[init[k].id])
    ensures Slices(q, gantt, EndTime(gantt)) && IdleWaits(init, ct, gantt)
  {
    forall k | 0 <= k < |init| ensures queue[k].remainingBurst == 0 {
    }
    CoversEndTime(gantt, t);
  }

  /** When the loop stops after a slice that completed a process, the
      completion times are all at most the end of the timeline, and that
      process's is the end of the timeline. */
  lemma RrLast(q: int, init: seq<Process>, queue: seq<Process>, ready: seq<nat>, qi: nat,
               t: int, gantt: seq<Block>, ct: map<string, int>, last: nat)
    requires RrState(q, init, queue, ready, qi, t, gantt, ct) && qi == |queue| && ready == []
    requires gantt == [] || (last < |queue| && queue[last].id in ct && ct[queue[last].id] == t)
    ensures EndsAt(init, ct, EndTime(gantt))
  {
    RrDone(q, init, queue, ready, qi, t, gantt, ct);
    CoversEndTime(gantt, t);
    if |init| > 0 {
      assert Admissible(init[0]) && SliceTotal(gantt, init[0].id) == init[0].burst;
      assert gantt != [];
      assert init[last].id == queue[last].id;
    }
  }

  /** From a configuration that is the initial one, one the loop has not
      finished with, or one just after a slice that completed a process,
      the configuration where the loop stops has every completion time at
      most the end of its timeline, and one of them at the end. */
  lemma {:induction false} FinalEnds(q: int, init: seq<Process>, c: Conf, last: nat)
    requires q > 0 && RrState(q, init, c.queue, c.ready, c.qi, c.t, c.gantt, c.ct)
    requires c.gantt == [] || Pass(c) ||
      (last < |c.queue| && c.queue[last].id in c.ct && c.ct[c.queue[last].id] == c.t)
    ensures var f := Final(q, init, c); EndsAt(init, f.ct, EndTime(f.gantt))
    decreases TotalRemaining(c.queue), if c.qi < |c.queue| && c.queue[c.qi].arrival <= c.t then 0 else 1
  {
    if !Pass(c) {
      RrLast(q, init, c.queue, c.ready, c.qi, c.t, c.gantt, c.ct, last);
    } else {
      NextKeeps(q, init, c);
      NextProgress(q, init, c);
      RrStateRemaining(q, init, c.queue, c.ready, c.qi, c.t, c.gantt, c.ct);
      var n := RrNext(q, c);
      var l := last;
      if !Pass(n) {
        l := LastPass(q, c);
      }
      FinalEnds(q, init, n, l);
    }
  }

  /** The position in the working copy of the i-th process of the list. */
  lemma InWorkingCopy(processes: seq<Process>, sorted: seq<Process>, init: seq<Process>, i: nat) returns (k: nat)
    requires multiset(sorted) == multiset(processes) && init == WorkingCopy(sorted) && i < |processes|
    ensures k < |init| && SameJob(init[k], processes[i])
  {
    assert processes[i] in multiset(sorted);
    k :| 0 <= k < |sorted| && sorted[k] == processes[i];
  }

  /** The position in the list of the k-th process of the working copy. */
  lemma FromWorkingCopy(processes: seq<Process>, sorted: seq<Process>, init: seq<Process>, k: nat) returns (i: nat)
    requires multiset(sorted) == multiset(processes) && init == WorkingCopy(sorted) && k < |init|
    ensures i < |processes| && SameJob(init[k], processes[i])
  {
    assert sorted[k] in multiset(processes);
    i :| 0 <= i < |processes| && processes[i] == sorted[k];
  }

  /** A round-robin row: no start time; turnaround and waiting derived from
      the completion time. */
  function RrRow(p: Process, completion: int): (r: Row)
    ensures Echoes(r, p) && r.start == None && r.completion == completion
    ensures r.turnaround == r.completion - r.arrival && r.waiting == r.turnaround - r.burst
  {
    Row(p.id, p.arrival, p.burst, None, completion, completion - p.arrival, completion - p.arrival - p.burst)
  }

  /** The metric identities of a round-robin row. */
  predicate RrMetrics(r: Row) {
    r.start == None &&
    r.turnaround == r.completion - r.arrival &&
    r.waiting == r.turnaround - r.burst &&
    r.waiting >= 0
  }

  /** Idle block `b` is justified by the results table: some process arrives
      at its end, none strictly inside it, and every process that had
      arrived by its start had completed by then. */
  predicate IdleJustified(rows: seq<Row>, b: Block) {
    (exists i :: 0 <= i < |rows| && rows[i].arrival == b.end) &&
    (forall i :: 0 <= i < |rows| && b.start < rows[i].arrival ==> b.end <= rows[i].arrival) &&
    (forall i :: 0 <= i < |rows| && rows[i].arrival <= b.start ==> rows[i].completion <= b.start)
  }

  lemma IdleRows(processes: seq<Process>, sorted: seq<Process>, init: seq<Process>,
                  ct: map<string, int>, res: seq<Row>, b: Block)
    requires multiset(sorted) == multiset(processes) && init == WorkingCopy(sorted)
    requires |res| == |processes|
    requires forall i :: 0 <= i < |processes| ==>
      processes[i].id in ct && res[i] == RrRow(processes[i], ct[processes[i].id])
    requires IdleWait(init, ct, b)
    ensures IdleJustified(res, b)
  {
    var k0 :| 0 <= k0 < |init| && init[k0].arrival == b.end;
    var i0 := FromWorkingCopy(processes, sorted, init, k0);
    assert res[i0].arrival == b.end;
    forall i | 0 <= i < |res|
      ensures b.start < res[i].arrival ==> b.end <= res[i].arrival
      ensures res[i].arrival <= b.start ==> res[i].completion <= b.start
    {
      var k := InWorkingCopy(processes, sorted, init, i);
      assert init[k].id == res[i].id && init[k].arrival == res[i].arrival;
    }
  }

  /** What the finished loop and the rows built from its completion table
      amount to, stated on the results table. */
  lemma RrFinish(processes: seq<Process>, sorted: seq<Process>, init: seq<Process>, gantt: seq<Block>,
                 ct: map<string, int>, res: seq<Row>)
    requires multiset(sorted) == multiset(processes) && init == WorkingCopy(sorted)
    requires forall k :: 0 <= k < |init| ==>
      init[k].id in ct && init[k].arrival + init[k].burst <= ct[init[k].id] &&
      SliceTotal(gantt, init[k].id) == init[k].burst &&
      LastSliceEnd(gantt, init[k].id) == Some(ct[init[k].id])
    requires IdleWaits(init, ct, gantt)
    requires |res| == |processes|
    requires forall i :: 0 <= i < |processes| ==>
      processes[i].id in ct && res[i] == RrRow(processes[i], ct[processes[i].id])
    ensures forall i :: 0 <= i < |res| ==> Echoes(res[i], processes[i]) && RrMetrics(res[i])
    ensures forall i :: 0 <= i < |res| ==>
      SliceTotal(gantt, res[i].id) == res[i].burst && LastSliceEnd(gantt, res[i].id) == Some(res[i].completion)
    ensures forall j :: 0 <= j < |gantt| && gantt[j].isIdle ==> IdleJustified(res, gantt[j])
  {
    forall i | 0 <= i < |res|
      ensures RrMetrics(res[i])
      ensures SliceTotal(gantt, res[i].id) == res[i].burst && LastSliceEnd(gantt, res[i].id) == Some(res[i].completion)
    {
      var k := InWorkingCopy(processes, sorted, init, i);
      assert init[k].id == res[i].id;
    }
    forall j | 0 <= j < |gantt| && gantt[j].isIdle ensures IdleJustified(res, gantt[j]) {
      IdleRows(processes, sorted, init, ct, res, gantt[j]);
    }
  }

  /** When the loop's completion times are all at most `end`, and one of
      them is `end`, the rows say the same. */
  lemma RrEnd(processes: seq<Process>, sorted: seq<Process>, init: seq<Process>, ct: map<string, int>,
              res: seq<Row>, end: int)
    requires multiset(sorted) == multiset(processes) && init == WorkingCopy(sorted)
    requires EndsAt(init, ct, end)
    requires |res| == |processes|
    requires forall i :: 0 <= i < |processes| ==>
      processes[i].id in ct && res[i] == RrRow(processes[i], ct[processes[i].id])
    ensures forall i :: 0 <= i < |res| ==> res[i].completion <= end
    ensures |res| > 0 ==> exists i :: 0 <= i < |res| && res[i].completion == end
  {
    forall i | 0 <= i < |res| ensures res[i].completion <= end {
      var k := InWorkingCopy(processes, sorted, init, i);
      assert init[k].id == processes[i].id;
    }
    if |res| > 0 {
      assert |init| == |sorted| == |processes| by {
        assert |multiset(sorted)| == |multiset(processes)|;
      }
      var k :| 0 <= k < |init| && init[k].id in ct && ct[init[k].id] == end;
      var i := FromWorkingCopy(processes, sorted, init, k);
      assert res[i].completion == end;
    }
  }

  /** Every process of the list has a completion time once the loop stops. */
  lemma AllCompleted(processes: seq<Process>, sorted: seq<Process>, init: seq<Process>, ct: map<string, int>)
    requires multiset(sorted) == multiset(processes) && init == WorkingCopy(sorted)
    requires forall k :: 0 <= k < |init| ==> init[k].id in ct
    ensures forall i :: 0 <= i < |processes| ==> processes[i].id in ct
  {
    forall i | 0 <= i < |processes| ensures processes[i].id in ct {
      var k := InWorkingCopy(processes, sorted, init, i);
    }
  }

  /** The scheduling loop, from the initial state until every process has
      been admitted and the ready queue is empty: it stops where `Final`
      says, pass by pass as `RrNext` says. */
  method Schedule(q: int, ghost init: seq<Process>, queue0: seq<Process>) returns (gantt: seq<Block>, ct: map<string, int>)
    requires q > 0 && RrState(q, init, queue0, [], 0, 0, [], map[])
    ensures var f := Final(q, init, Start(queue0)); gantt == f.gantt && ct == f.ct
    ensures forall k :: 0 <= k < |init| ==>
      init[k].id in ct && init[k].arrival + init[k].burst <= ct[init[k].id] &&
      SliceTotal(gantt, init[k].id) == init[k].burst &&
      LastSliceEnd(gantt, init[k].id) == Some(ct[init[k].id])
    ensures Slices(q, gantt, EndTime(gantt)) && IdleWaits(init, ct, gantt)
  {
    var queue, ready: seq<nat>, qi: nat, t := queue0, [], 0, 0;
    gantt, ct := [], map[];
    RrStateRemaining(q, init, queue, ready, qi, t, gantt, ct);
    while qi < |queue| || |ready| > 0
      invariant RrState(q, init, queue, ready, qi, t, gantt, ct)
      invariant TotalRemaining(queue) >= 0
      invariant Final(q, init, Conf(queue, ready, qi, t, gantt, ct)) == Final(q, init, Start(queue0))
      decreases TotalRemaining(queue), if qi < |queue| && queue[qi].arrival <= t then 0 else 1
    {
      ghost var c := Conf(queue, ready, qi, t, gantt, ct);
      NextKeeps(q, init, c);
      NextProgress(q, init, c);
      queue, ready, qi, t, gantt, ct := Advance(q, queue, ready, qi, t, gantt, ct);
      RrStateRemaining(q, init, queue, ready, qi, t, gantt, ct);
    }
    RrDone(q, init, queue, ready, qi, t, gantt, ct);
  }

  /** The results table: one row per process, in list order, from the
      completion table. */
  method Rows(processes: seq<Process>, ct: map<string, int>) returns (res: seq<Row>)
    requires forall i :: 0 <= i < |processes| ==> processes[i].id in ct
    ensures |res| == |processes|
    ensures forall i :: 0 <= i < |processes| ==> res[i] == RrRow(processes[i], ct[processes[i].id])
  {
    res := [];
    for i := 0 to |processes|
      invariant |res| == i
      invariant forall j :: 0 <= j < i ==> res[j] == RrRow(processes[j], ct[processes[j].id])
    {
      var proc := processes[i];
      var completion := ct[proc.id];
      var turnaround := completion - proc.arrival;
      var waiting := turnaround - proc.burst;
      res := res + [Row(proc.id, proc.arrival, proc.burst, None, completion, turnaround, waiting)];
    }
  }

  /** The round-robin results for `processes` with quantum `q`: the
      timeline of the configuration where the loop stops, when it starts
      from the working copy of the list sorted by arrival, and one row per
      process, in list order, with the completion time that configuration
      records for it. */
  ghost predicate Outcome(q: int, processes: seq<Process>, res: seq<Row>, gantt: seq<Block>) {
    q > 0 && AllAdmissible(processes) && UniqueIds(processes) &&
    var sorted := SortByArrival(processes);
    var init := WorkingCopy(sorted);
    SortByArrivalSorted(processes);
    SortByArrivalUniqueIds(processes);
    SortByArrivalAdmissible(processes);
    InitState(q, sorted, init);
    var f := Final(q, init, Start(init));
    gantt == f.gantt && |res| == |processes| &&
    forall i :: 0 <= i < |res| ==>
      processes[i].id in f.ct && res[i] == RrRow(processes[i], f.ct[processes[i].id])
  }

  /** Runs round-robin with quantum `q` on a copy of `processes`. Each row
      repeats its process, in list order, with the completion time of the
      process's last slice; a process's slices add up to its burst; the
      timeline runs from 0 without gap or overlap with no slice longer than
      `q`; and the CPU idles only when every arrived process has completed,
      up to the next arrival. These are the rows and the timeline `Outcome`
      defines. */
  method Run(processes: seq<Process>, q: int) returns (res: seq<Row>, gantt: seq<Block>)
    requires AllAdmissible(processes) && UniqueIds(processes) && q > 0
    ensures Outcome(q, processes, res, gantt)
    ensures |res| == |processes|
    ensures forall i :: 0 <= i < |res| ==> Echoes(res[i], processes[i]) && RrMetrics(res[i])
    ensures forall i :: 0 <= i < |res| ==>
      SliceTotal(gantt, res[i].id) == res[i].burst && LastSliceEnd(gantt, res[i].id) == Some(res[i].completion)
    ensures Slices(q, gantt, EndTime(gantt))
    ensures forall j :: 0 <= j < |gantt| && gantt[j].isIdle ==> IdleJustified(res, gantt[j])
    ensures forall i :: 0 <= i < |res| ==> res[i].completion <= EndTime(gantt)
    ensures |res| > 0 ==> exists i :: 0 <= i < |res| && res[i].completion == EndTime(gantt)
  {
    var sorted := SortByArrival(processes);
    var queue := WorkingCopy(sorted);
    SortByArrivalSorted(processes);
    SortByArrivalUniqueIds(processes);
    SortByArrivalAdmissible(processes);
    InitState(q, sorted, queue);
    var ct;
    gantt, ct := Schedule(q, queue, queue);
    AllCompleted(processes, sorted, queue, ct);
    res := Rows(processes, ct);
    RrFinish(processes, sorted, queue, gantt, ct, res);
    FinalEnds(q, queue, Start(queue), 0);
    RrEnd(processes, sorted, queue, ct, res, EndTime(gantt));
  }

  /** The passes for two processes that arrive together, with quantum 2.
      First, P1 runs one slice, and goes to the back behind P2. */
  lemma ExampleStep1()
    ensures RrNext(2, Conf([Process("P1", 0, 4, 0, 4), Process("P2", 0, 2, 1, 2)], [], 0, 0, [], map[])) ==
      Conf([Process("P1", 0, 4, 0, 2), Process("P2", 0, 2, 1, 2)], [1, 0], 2, 2, [BusyBlock("P1", 0, 2)], map[])
  {
    var c := Conf([Process("P1", 0, 4, 0, 4), Process("P2", 0, 2, 1, 2)], [], 0, 0, [], map[]);
    assert NextCursor(c.queue, 0, 0) == 2;
    var n := RrNext(2, c);
    SliceNext(2, c, 2, [0, 1], n);
    assert NextCursor(n.queue, 2, 2) == 2;
  }

  /** Then P2 runs to completion at 4. */
  lemma ExampleStep2()
    ensures RrNext(2, Conf([Process("P1", 0, 4, 0, 2), Process("P2", 0, 2, 1, 2)], [1, 0], 2, 2,
                           [BusyBlock("P1", 0, 2)], map[])) ==
      Conf([Process("P1", 0, 4, 0, 2), Process("P2", 0, 2, 1, 0)], [0], 2, 4,
           [BusyBlock("P1", 0, 2), BusyBlock("P2", 2, 4)], map["P2" := 4])
  {
    var c := Conf([Process("P1", 0, 4, 0, 2), Process("P2", 0, 2, 1, 2)], [1, 0], 2, 2, [BusyBlock("P1", 0, 2)], map[]);
    var n := RrNext(2, c);
    SliceNext(2, c, 2, [1, 0], n);
  }

  /** Then P1 runs to completion at 6, and the loop stops. */
  lemma ExampleStep3()
    ensures RrNext(2, Conf([Process("P1", 0, 4, 0, 2), Process("P2", 0, 2, 1, 0)], [0], 2, 4,
                           [BusyBlock("P1", 0, 2), BusyBlock("P2", 2, 4)], map["P2" := 4])) ==
      Conf([Process("P1", 0, 4, 0, 0), Process("P2", 0, 2, 1, 0)], [], 2, 6,
           [BusyBlock("P1", 0, 2), BusyBlock("P2", 2, 4), BusyBlock("P1", 4, 6)], map["P2" := 4, "P1" := 6])
  {
    var c := Conf([Process("P1", 0, 4, 0, 2), Process("P2", 0, 2, 1, 0)], [0], 2, 4,
                  [BusyBlock("P1", 0, 2), BusyBlock("P2", 2, 4)], map["P2" := 4]);
    var n := RrNext(2, c);
    SliceNext(2, c, 2, [0], n);
  }

  /** From the start, the loop stops after those three passes. */
  lemma ExampleFinal()
    ensures var ps := [Process("P1", 0, 4, 0, 4), Process("P2", 0, 2, 1, 2)];
      Final(2, ps, Start(ps)) ==
      Conf([Process("P1", 0, 4, 0, 0), Process("P2", 0, 2, 1, 0)], [], 2, 6,
           [BusyBlock("P1", 0, 2), BusyBlock("P2", 2, 4), BusyBlock("P1", 4, 6)], map["P2" := 4, "P1" := 6])
  {
    var ps := [Process("P1", 0, 4, 0, 4), Process("P2", 0, 2, 1, 2)];
    assert WorkingCopy(ps) == ps;
    InitState(2, ps, ps);
    var c0 := Start(ps);
    NextKeeps(2, ps, c0);
    ExampleStep1();
    var c1 := RrNext(2, c0);
    NextKeeps(2, ps, c1);
    ExampleStep2();
    var c2 := RrNext(2, c1);
    NextKeeps(2, ps, c2);
    ExampleStep3();
    var c3 := RrNext(2, c2);
    assert Final(2, ps, c3) == c3;
    assert Final(2, ps, c2) == c3;
    assert Final(2, ps, c1) == c3;
  }

  /** P1 and P2, listed in that order, are their own sorted working copy. */
  lemma ExampleCopy()
    ensures var ps := [Process("P1", 0, 4, 0, 4), Process("P2", 0, 2, 1, 2)];
      WorkingCopy(SortByArrival(ps)) == ps
  {
    var ps := [Process("P1", 0, 4, 0, 4), Process("P2", 0, 2, 1, 2)];
    assert SortByArrival(ps) == ps;
    assert WorkingCopy(ps) == ps;
  }
}
