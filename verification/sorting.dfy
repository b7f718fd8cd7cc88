/** The comparator FCFS and round-robin hand to `Array.prototype.sort`,
    and the stable sort it drives. */
module Sorting {
  import opened Types

  /** `a` may stay before `b`: earlier arrival, or the same arrival and a
      smaller or equal insertion number. */
  predicate ArrivalFirst(a: Process, b: Process) {
    a.arrival < b.arrival || (a.arrival == b.arrival && a.order <= b.order)
  }

  predicate SortedByArrival(s: seq<Process>) {
    forall i, j :: 0 <= i < j < |s| ==> ArrivalFirst(s[i], s[j])
  }

  /** Places `x` before the first element it may precede; since the elements
      are inserted from the back of the list, equal keys keep list order. */
  function Insert(x: Process, s: seq<Process>): (r: seq<Process>)
    ensures |r| == |s| + 1 && multiset(r) == multiset(s) + multiset{x}
  {
    if s == [] || ArrivalFirst(x, s[0]) then [x] + s
    else
      assert s == [s[0]] + s[1..];
      [s[0]] + Insert(x, s[1..])
  }

  /** The list sorted by (arrival ascending, order ascending), stably. */
  function SortByArrival(s: seq<Process>): (r: seq<Process>)
    ensures |r| == |s| && multiset(r) == multiset(s)
  {
    if s == [] then []
    else
      assert s == [s[0]] + s[1..];
      Insert(s[0], SortByArrival(s[1..]))
  }

  lemma {:induction false} InsertSorted(x: Process, s: seq<Process>)
    requires SortedByArrival(s)
    ensures SortedByArrival(Insert(x, s))
  {
    if s == [] || ArrivalFirst(x, s[0]) {
    } else {
      InsertSorted(x, s[1..]);
      var t := Insert(x, s[1..]);
      assert forall p :: p in t ==> p == x || p in s[1..] by {
        forall p | p in t ensures p == x || p in s[1..] {
          assert p in multiset(t);
        }
      }
      var r := [s[0]] + t;
      forall i, j | 0 <= i < j < |r| ensures ArrivalFirst(r[i], r[j]) {
        if i == 0 {
          assert r[j] in t;
        }
      }
    }
  }

  /** FCFS and round-robin dispatch in this order. */
  lemma {:induction false} SortByArrivalSorted(s: seq<Process>)
    ensures SortedByArrival(SortByArrival(s))
  {
    if s != [] {
      SortByArrivalSorted(s[1..]);
      InsertSorted(s[0], SortByArrival(s[1..]));
    }
  }

  lemma {:induction false} InsertUniqueIds(x: Process, s: seq<Process>)
    requires UniqueIds(s) && forall p :: p in s ==> p.id != x.id
    ensures UniqueIds(Insert(x, s))
  {
    if s == [] || ArrivalFirst(x, s[0]) {
    } else {
      InsertUniqueIds(x, s[1..]);
      var t := Insert(x, s[1..]);
      var r := [s[0]] + t;
      forall i, j | 0 <= i < j < |r| ensures r[i].id != r[j].id {
        if i == 0 {
          assert r[j] in multiset(t);
          assert r[j] == x || r[j] in s[1..];
        }
      }
    }
  }

  /** Sorting a list whose ids are distinct gives a list whose ids are distinct. */
  lemma {:induction false} SortByArrivalUniqueIds(s: seq<Process>)
    requires UniqueIds(s)
    ensures UniqueIds(SortByArrival(s))
  {
    if s != [] {
      SortByArrivalUniqueIds(s[1..]);
      var t := SortByArrival(s[1..]);
      forall p | p in t ensures p.id != s[0].id {
        assert p in multiset(s[1..]);
      }
      InsertUniqueIds(s[0], t);
    }
  }

  lemma SortByArrivalAdmissible(s: seq<Process>)
    requires AllAdmissible(s)
    ensures AllAdmissible(SortByArrival(s))
  {
    var r := SortByArrival(s);
    forall i | 0 <= i < |r| ensures Admissible(r[i]) {
      assert r[i] in multiset(s);
    }
  }

  /** The processes of `s` with arrival `a` and insertion number `o`, in
      list order. */
  function WithKey(s: seq<Process>, a: int, o: int): seq<Process> {
    if s == [] then []
    else (if s[0].arrival == a && s[0].order == o then [s[0]] else []) + WithKey(s[1..], a, o)
  }

  /** `Insert` puts `x` ahead of every element with the same key. */
  lemma {:induction false} InsertWithKey(x: Process, s: seq<Process>, a: int, o: int)
    ensures WithKey(Insert(x, s), a, o) ==
      (if x.arrival == a && x.order == o then [x] else []) + WithKey(s, a, o)
  {
    if s == [] || ArrivalFirst(x, s[0]) {
      assert ([x] + s)[1..] == s;
    } else {
      InsertWithKey(x, s[1..], a, o);
      var r := [s[0]] + Insert(x, s[1..]);
      assert r[0] == s[0] && r[1..] == Insert(x, s[1..]);
    }
  }

  /** The sort is stable: processes with the same arrival and insertion
      number come out in their list order. */
  lemma {:induction false} SortByArrivalStable(s: seq<Process>, a: int, o: int)
    ensures WithKey(SortByArrival(s), a, o) == WithKey(s, a, o)
  {
    if s != [] {
      SortByArrivalStable(s[1..], a, o);
      InsertWithKey(s[0], SortByArrival(s[1..]), a, o);
    }
  }
}
