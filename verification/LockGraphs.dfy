/** Numbering the locks and grouping the orders between them. */
module LockGraphs {
  import opened Facts

  type EdgesByFirstLock = map<string, seq<LockOrderFact>>

  /** The orders from one lock to another, in the order they were collected. */
  datatype LockSuccessor = LockSuccessor(lock: nat, orders: seq<LockOrderFact>)

  /** The successors of each lock, locks being numbered from 0. */
  type LockGraph = seq<seq<LockSuccessor>>

  /** The locks numbered from 0 without a gap: `names` lists them in the order of their numbers. */
  ghost predicate IsNumbering(numbers: map<string, nat>, names: seq<string>) {
    && (forall lock | lock in numbers :: numbers[lock] < |names| && names[numbers[lock]] == lock)
    && (forall k | 0 <= k < |names| :: names[k] in numbers && numbers[names[k]] == k)
  }

  ghost predicate SecondsNumbered(orders: seq<LockOrderFact>, numbers: map<string, nat>) {
    forall k | 0 <= k < |orders| :: orders[k].secondLockId in numbers
  }

  ghost function AllLocks(edges: EdgesByFirstLock): set<string> {
    edges.Keys + (set lock, order | lock in edges && order in edges[lock] :: order.secondLockId)
  }

  ghost predicate ClosedUnder(edges: EdgesByFirstLock, locks: set<string>) {
    forall lock, k | lock in edges && 0 <= k < |edges[lock]| :: edges[lock][k].secondLockId in locks
  }

  /** Every lock numbered and not still being followed has all its successors numbered. */
  ghost predicate Settled(edges: EdgesByFirstLock, numbers: map<string, nat>, active: set<string>) {
    forall lock, k | lock in numbers && lock in edges && lock !in active && 0 <= k < |edges[lock]| ::
      edges[lock][k].secondLockId in numbers
  }

  lemma {:induction false} NumberingSize(numbers: map<string, nat>, names: seq<string>)
    requires IsNumbering(numbers, names)
    ensures |numbers| == |names|
    decreases |names|
  {
    if names == [] {
      assert numbers == map[] by {
        assert forall lock :: lock !in numbers;
      }
    } else {
      var last := names[|names| - 1];
      var rest := numbers - {last};
      NumberingSize(rest, names[..|names| - 1]);
      assert numbers.Keys == rest.Keys + {last};
    }
  }

  function Seconds(orders: seq<LockOrderFact>): seq<string> {
    seq(|orders|, k requires 0 <= k < |orders| => orders[k].secondLockId)
  }

  function OrdersFrom(edges: EdgesByFirstLock, lock: string): seq<LockOrderFact> {
    if lock in edges then edges[lock] else []
  }

  ghost function SetOf(names: seq<string>): set<string> {
    set name | name in names
  }

  /** The locks in the order a depth-first walk first reaches them, past those it has reached. The walk looks at the
      first lock of its agenda and puts what a new one leads to, in the order collected, before the rest. */
  ghost function FirstReached(edges: EdgesByFirstLock, locks: set<string>, agenda: seq<string>, names: seq<string>): seq<string>
    decreases locks - SetOf(names), |agenda|
  {
    if agenda == [] then names
    else if agenda[0] in names || agenda[0] !in locks then FirstReached(edges, locks, agenda[1..], names)
    else
      assert agenda[0] in SetOf(names + [agenda[0]]);
      FirstReached(edges, locks, Seconds(OrdersFrom(edges, agenda[0])) + agenda[1..], names + [agenda[0]])
  }

  lemma ReachedAlready(edges: EdgesByFirstLock, locks: set<string>, lock: string, rest: seq<string>, names: seq<string>)
    requires lock in names
    ensures FirstReached(edges, locks, [lock] + rest, names) == FirstReached(edges, locks, rest, names)
  {
    assert ([lock] + rest)[1..] == rest;
  }

  lemma ReachedNow(edges: EdgesByFirstLock, locks: set<string>, lock: string, rest: seq<string>, names: seq<string>)
    requires lock !in names && lock in locks
    ensures FirstReached(edges, locks, [lock] + rest, names)
         == FirstReached(edges, locks, Seconds(OrdersFrom(edges, lock)) + rest, names + [lock])
  {
    assert ([lock] + rest)[1..] == rest;
  }

  lemma NumberedIsNamed(numbers: map<string, nat>, names: seq<string>, lock: string)
    requires IsNumbering(numbers, names)
    ensures lock in numbers <==> lock in names
  {
  }

  /** Numbers `lockId` and what it leads to, as the walk reaches them before the `rest` of its agenda. The locks in
      `active` are still being followed. */
  method Number(lockId: string, edges: EdgesByFirstLock, given: map<string, nat>,
                ghost givenNames: seq<string>, ghost locks: set<string>, ghost active: set<string>,
                ghost rest: seq<string>)
    returns (numbers: map<string, nat>, ghost names: seq<string>)
    requires ClosedUnder(edges, locks) && lockId in locks && given.Keys <= locks
    requires IsNumbering(given, givenNames) && Settled(edges, given, active)
    ensures numbers.Keys <= locks && lockId in numbers
    ensures IsNumbering(numbers, names) && Settled(edges, numbers, active) && givenNames <= names
    ensures lockId !in given ==> numbers[lockId] == |givenNames|
    ensures FirstReached(edges, locks, [lockId] + rest, givenNames) == FirstReached(edges, locks, rest, names)
    decreases locks - given.Keys, 0
  {
    hide FirstReached;
    numbers, names := given, givenNames;
    NumberedIsNamed(numbers, names, lockId);
    if lockId in numbers {
      ReachedAlready(edges, locks, lockId, rest, names);
      return;
    }
    ReachedNow(edges, locks, lockId, rest, names);
    NumberingSize(numbers, names);
    numbers, names := numbers[lockId := |numbers|], names + [lockId];
    if lockId !in edges {
      assert Seconds([]) + rest == rest;
      return;
    }
    assert lockId in locks - given.Keys && lockId !in locks - numbers.Keys;
    numbers, names := NumberSeconds(edges[lockId], lockId, edges, numbers, names, locks, active, rest);
    assert names[|givenNames|] == lockId;
  }

  /** Numbers what the orders of `lockId` lead to. */
  method NumberSeconds(orders: seq<LockOrderFact>, lockId: string, edges: EdgesByFirstLock, given: map<string, nat>,
                       ghost givenNames: seq<string>, ghost locks: set<string>, ghost active: set<string>,
                       ghost rest: seq<string>)
    returns (numbers: map<string, nat>, ghost names: seq<string>)
    requires ClosedUnder(edges, locks) && given.Keys <= locks && lockId in edges && orders == edges[lockId]
    requires IsNumbering(given, givenNames) && Settled(edges, given, active + {lockId})
    ensures numbers.Keys <= locks
    ensures IsNumbering(numbers, names) && Settled(edges, numbers, active) && givenNames <= names
    ensures FirstReached(edges, locks, Seconds(orders) + rest, givenNames) == FirstReached(edges, locks, rest, names)
    decreases locks - given.Keys, 1
  {
    hide FirstReached;
    numbers, names := given, givenNames;
    assert orders[0..] == orders;
    for i := 0 to |orders|
      invariant numbers.Keys <= locks
      invariant IsNumbering(numbers, names) && givenNames <= names
      invariant Settled(edges, numbers, active + {lockId})
      invariant forall k | 0 <= k < i :: orders[k].secondLockId in numbers
      invariant FirstReached(edges, locks, Seconds(orders) + rest, givenNames)
             == FirstReached(edges, locks, Seconds(orders[i..]) + rest, names)
    {
      ghost var later := Seconds(orders[i + 1..]) + rest;
      assert Seconds(orders[i..]) + rest == [orders[i].secondLockId] + later;
      assert numbers.Keys >= given.Keys by {
        assert forall lock | lock in given :: names[given[lock]] in numbers;
      }
      ghost var before := names;
      numbers, names := Number(orders[i].secondLockId, edges, numbers, names, locks, active + {lockId}, later);
      assert forall k | 0 <= k < |before| :: names[k] in numbers;
    }
    assert Seconds(orders[|orders|..]) + rest == rest;
  }

  /** The orders of `edges` whose second lock has the number `target`, in their order. */
  function OrdersTo(edges: seq<LockOrderFact>, numbers: map<string, nat>, target: nat): seq<LockOrderFact> {
    if edges == [] then []
    else
      var last := edges[|edges| - 1];
      var before := OrdersTo(edges[..|edges| - 1], numbers, target);
      if last.secondLockId in numbers && numbers[last.secondLockId] == target then before + [last] else before
  }

  lemma {:induction false} InOrdersTo(edges: seq<LockOrderFact>, numbers: map<string, nat>, target: nat,
                                      order: LockOrderFact)
    ensures order in OrdersTo(edges, numbers, target)
       <==> order in edges && order.secondLockId in numbers && numbers[order.secondLockId] == target
  {
    if edges != [] {
      InOrdersTo(edges[..|edges| - 1], numbers, target, order);
      assert edges == edges[..|edges| - 1] + [edges[|edges| - 1]];
    }
  }

  lemma OrdersToMore(edges: seq<LockOrderFact>, order: LockOrderFact, numbers: map<string, nat>, target: nat)
    requires order.secondLockId in numbers
    ensures OrdersTo(edges + [order], numbers, target)
         == if numbers[order.secondLockId] == target then OrdersTo(edges, numbers, target) + [order]
            else OrdersTo(edges, numbers, target)
  {
    assert (edges + [order])[..|edges|] == edges;
  }

  /** The successors of one lock hold its orders, each under the number of its second lock. */
  ghost predicate RowRepresents(row: seq<LockSuccessor>, numbers: map<string, nat>, orders: seq<LockOrderFact>) {
    && (forall j | 0 <= j < |row| :: row[j].orders != [] && row[j].orders == OrdersTo(orders, numbers, row[j].lock))
    && (forall order | order in orders :: order.secondLockId in numbers && HasSuccessor(row, numbers[order.secondLockId]))
  }

  predicate HasSuccessor(row: seq<LockSuccessor>, lock: nat) {
    exists j | 0 <= j < |row| :: row[j].lock == lock
  }

  /** The successors of one lock: each successor once, with all the orders to it as collected. */
  method SuccessorsOf(edges: seq<LockOrderFact>, numbers: map<string, nat>) returns (successors: seq<LockSuccessor>)
    requires SecondsNumbered(edges, numbers)
    ensures RowRepresents(successors, numbers, edges)
    ensures forall i, j | 0 <= i < j < |successors| :: successors[i].lock != successors[j].lock
  {
    hide OrdersTo, HasSuccessor;
    successors := [];
    var positions: map<nat, nat> := map[];
    for i := 0 to |edges|
      invariant forall target | target in positions ::
                  positions[target] < |successors| && successors[positions[target]].lock == target
      invariant forall k | 0 <= k < |successors| ::
                  successors[k].lock in positions && positions[successors[k].lock] == k
      invariant forall k | 0 <= k < |successors| ::
                  successors[k].orders != []
                  && successors[k].orders == OrdersTo(edges[..i], numbers, successors[k].lock)
      invariant forall k | 0 <= k < i :: numbers[edges[k].secondLockId] in positions
    {
      var order := edges[i];
      var target := numbers[order.secondLockId];
      assert edges[..i + 1] == edges[..i] + [order];
      forall other
        ensures OrdersTo(edges[..i + 1], numbers, other)
             == if target == other then OrdersTo(edges[..i], numbers, other) + [order] else OrdersTo(edges[..i], numbers, other)
      {
        OrdersToMore(edges[..i], order, numbers, other);
      }
      if target !in positions {
        NoOrdersTo(edges[..i], numbers, target);
        positions := positions[target := |successors|];
        successors := successors + [LockSuccessor(target, [])];
      }
      var position := positions[target];
      successors := successors[position := successors[position].(orders := successors[position].orders + [order])];
    }
    assert edges[..|edges|] == edges;
    forall order | order in edges
      ensures order.secondLockId in numbers && HasSuccessor(successors, numbers[order.secondLockId])
    {
      var k :| 0 <= k < |edges| && edges[k] == order;
      SuccessorAt(successors, positions[numbers[order.secondLockId]]);
    }
  }

  lemma SuccessorAt(row: seq<LockSuccessor>, j: nat)
    requires j < |row|
    ensures HasSuccessor(row, row[j].lock)
  {
  }

  lemma NoOrdersTo(edges: seq<LockOrderFact>, numbers: map<string, nat>, target: nat)
    requires SecondsNumbered(edges, numbers)
    requires forall k | 0 <= k < |edges| :: numbers[edges[k].secondLockId] != target
    ensures OrdersTo(edges, numbers, target) == []
  {
    if OrdersTo(edges, numbers, target) != [] {
      InOrdersTo(edges, numbers, target, OrdersTo(edges, numbers, target)[0]);
    }
  }

  /** What `graph` says about `edges`: the locks numbered, each order in its place and nothing else. */
  ghost predicate Represents(graph: LockGraph, names: seq<string>, numbers: map<string, nat>,
                             edges: EdgesByFirstLock)
  {
    && |graph| == |names| && IsNumbering(numbers, names) && numbers.Keys == AllLocks(edges)
    && (forall k | 0 <= k < |graph| :: RowRepresents(graph[k], numbers, OrdersFrom(edges, names[k])))
  }

  /** Numbers the locks in the order a depth-first walk from the roots first reaches them. */
  method NumberLocks(edges: EdgesByFirstLock, orderedRoots: seq<string>)
    returns (numbers: map<string, nat>, ghost names: seq<string>)
    requires forall lock :: lock in orderedRoots <==> lock in edges
    ensures IsNumbering(numbers, names) && numbers.Keys == AllLocks(edges)
    ensures names == FirstReached(edges, AllLocks(edges), orderedRoots, [])
    ensures orderedRoots != [] ==> names != [] && names[0] == orderedRoots[0]
  {
    hide FirstReached, AllLocks, Settled, ClosedUnder;
    numbers, names := map[], [];
    ghost var locks := AllLocks(edges);
    LocksClosed(edges);
    assert orderedRoots[0..] == orderedRoots;
    for i := 0 to |orderedRoots|
      invariant numbers.Keys <= locks && IsNumbering(numbers, names)
      invariant Settled(edges, numbers, {})
      invariant if i == 0 then names == [] else names != [] && names[0] == orderedRoots[0]
      invariant forall k | 0 <= k < i :: orderedRoots[k] in numbers
      invariant FirstReached(edges, locks, orderedRoots, []) == FirstReached(edges, locks, orderedRoots[i..], names)
    {
      assert orderedRoots[i..] == [orderedRoots[i]] + orderedRoots[i + 1..];
      assert orderedRoots[i] in orderedRoots;
      ghost var before, known := names, numbers;
      numbers, names := Number(orderedRoots[i], edges, numbers, names, locks, {}, orderedRoots[i + 1..]);
      StillNumbered(known, before, numbers, names);
    }
    NothingLeft(edges, locks, names);
    AllNumbered(edges, numbers);
  }

  lemma StillNumbered(given: map<string, nat>, givenNames: seq<string>, numbers: map<string, nat>, names: seq<string>)
    requires IsNumbering(given, givenNames) && IsNumbering(numbers, names) && givenNames <= names
    ensures given.Keys <= numbers.Keys
  {
    assert forall lock | lock in given :: names[given[lock]] in numbers;
  }

  lemma LocksClosed(edges: EdgesByFirstLock)
    ensures ClosedUnder(edges, AllLocks(edges)) && edges.Keys <= AllLocks(edges) && Settled(edges, map[], {})
  {
  }

  lemma AllNumbered(edges: EdgesByFirstLock, numbers: map<string, nat>)
    requires Settled(edges, numbers, {}) && edges.Keys <= numbers.Keys
    ensures AllLocks(edges) <= numbers.Keys
  {
    forall lock | lock in AllLocks(edges)
      ensures lock in numbers
    {
      if lock !in edges {
        var first, k :| first in edges && 0 <= k < |edges[first]| && edges[first][k].secondLockId == lock;
      }
    }
  }

  lemma NothingLeft(edges: EdgesByFirstLock, locks: set<string>, names: seq<string>)
    ensures FirstReached(edges, locks, [], names) == names
  {
  }

  lemma AllSecondsNumbered(edges: EdgesByFirstLock, numbers: map<string, nat>, lock: string)
    requires numbers.Keys == AllLocks(edges) && lock in edges
    ensures SecondsNumbered(edges[lock], numbers)
  {
    forall k | 0 <= k < |edges[lock]|
      ensures edges[lock][k].secondLockId in numbers
    {
      assert edges[lock][k].secondLockId in AllLocks(edges);
    }
  }

  /** Fills the rows of the locks that have orders; the others have no successor. */
  method FillRows(edges: EdgesByFirstLock, numbers: map<string, nat>, ghost names: seq<string>)
    returns (graph: LockGraph)
    requires IsNumbering(numbers, names) && numbers.Keys == AllLocks(edges)
    ensures Represents(graph, names, numbers, edges)
  {
    NumberingSize(numbers, names);
    graph := seq(|numbers|, _ => []);
    var remaining := edges.Keys;
    while remaining != {}
      invariant remaining <= edges.Keys && |graph| == |names|
      invariant forall k | 0 <= k < |graph| && names[k] !in remaining ::
                  RowRepresents(graph[k], numbers, OrdersFrom(edges, names[k]))
    {
      var lock :| lock in remaining;
      AllSecondsNumbered(edges, numbers, lock);
      var row := SuccessorsOf(edges[lock], numbers);
      remaining := remaining - {lock};
      graph := graph[numbers[lock] := row];
    }
  }

  method BuildLockGraph(edges: EdgesByFirstLock, orderedRoots: seq<string>)
    returns (graph: LockGraph, ghost names: seq<string>, ghost numbers: map<string, nat>)
    requires forall lock :: lock in orderedRoots <==> lock in edges
    ensures Represents(graph, names, numbers, edges)
    ensures names == FirstReached(edges, AllLocks(edges), orderedRoots, [])
  {
    hide FirstReached, Represents;
    var numbered, order := NumberLocks(edges, orderedRoots);
    names, numbers := order, numbered;
    graph := FillRows(edges, numbered, names);
  }
}
