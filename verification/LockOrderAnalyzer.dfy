/** The lock-order checker: self-deadlocks, and every cycle of lock orders that may deadlock. */
module LockOrderAnalyzer {
  import opened Facts
  import opened Strings
  import opened LockCycles
  import opened LockGraphs
  import opened CycleSearch

  datatype Report = Report(selfDeadlocks: seq<LockOrderFact>, cycles: seq<Cycle>, searchIncomplete: bool)

  /** Reacquires a lock its thread holds, of a type that does not allow it. */
  predicate IsSelfDeadlock(order: LockOrderFact, recursiveLockIds: set<string>) {
    order.firstLockId == order.secondLockId && order.secondLockId !in recursiveLockIds
  }

  function SelfDeadlocks(orders: seq<LockOrderFact>, recursiveLockIds: set<string>): seq<LockOrderFact> {
    if orders == [] then []
    else
      var before := SelfDeadlocks(orders[..|orders| - 1], recursiveLockIds);
      if IsSelfDeadlock(orders[|orders| - 1], recursiveLockIds) then before + [orders[|orders| - 1]] else before
  }

  /** The self-deadlocks listed are exactly the orders that take a lock again, of a type that does not allow it, each as
      often as it was collected. */
  ghost predicate ListsSelfDeadlocks(report: Report, orders: seq<LockOrderFact>, recursiveLockIds: set<string>) {
    forall order :: multiset(report.selfDeadlocks)[order]
                    == if order.firstLockId == order.secondLockId && order.firstLockId !in recursiveLockIds
                       then multiset(orders)[order] else 0
  }

  lemma {:induction false} SelfDeadlocksAre(orders: seq<LockOrderFact>, recursiveLockIds: set<string>, order: LockOrderFact)
    ensures multiset(SelfDeadlocks(orders, recursiveLockIds))[order]
         == if order.firstLockId == order.secondLockId && order.firstLockId !in recursiveLockIds
            then multiset(orders)[order] else 0
  {
    if orders != [] {
      var before, last := orders[..|orders| - 1], orders[|orders| - 1];
      assert orders == before + [last];
      SelfDeadlocksAre(before, recursiveLockIds, order);
    }
  }

  ghost predicate ListedFromLowest(names: seq<string>, c: Cycle) {
    exists start | 0 <= start < |names| ::
      && c != [] && c[0].firstLockId == names[start]
      && forall i | 0 < i < |c| :: c[i].firstLockId in names[start + 1..]
  }

  ghost predicate OnKey(cycles: seq<Cycle>, i: nat, key: CycleKey) {
    i < |cycles| && Key(cycles[i]) == key
  }

  ghost predicate Reports(cycles: seq<Cycle>, key: CycleKey) {
    exists i :: OnKey(cycles, i, key)
  }

  /** What the checker reports about the cycles of `orders`. */
  ghost predicate Judges(report: Report, orders: seq<LockOrderFact>, facts: EntryFacts) {
    && (forall i | 0 <= i < |report.cycles| :: Ungated(report.cycles[i], orders, facts))
    && (forall i, j | 0 <= i < j < |report.cycles| :: Key(report.cycles[i]) != Key(report.cycles[j]))
    && (!report.searchIncomplete ==>
          && (forall i | 0 <= i < |report.cycles| :: MayDeadlock(report.cycles[i], orders, facts))
          && (forall c | MayDeadlock(c, orders, facts) :: Reports(report.cycles, Key(c))))
  }

  // ----- the orders grouped by their first lock ----------------------------------------------

  /** An order collected between two locks, in code a thread entry or the initial thread reaches. */
  ghost predicate IsRealEdge(order: LockOrderFact, orders: seq<LockOrderFact>, facts: EntryFacts) {
    && (exists i | 0 <= i < |orders| :: orders[i] == order) && order.firstLockId != order.secondLockId
    && (order.inRootTask || order.functionId in facts.reachableThreadEntriesByFunction.Keys)
  }

  /** Exactly the real orders are grouped, each under its first lock. */
  ghost predicate GroupsReal(edges: EdgesByFirstLock, orders: seq<LockOrderFact>, facts: EntryFacts) {
    && (forall lock, order | lock in edges && order in edges[lock] ::
          order.firstLockId == lock && IsRealEdge(order, orders, facts))
    && (forall order | IsRealEdge(order, orders, facts) ::
          order.firstLockId in edges && order in edges[order.firstLockId])
  }

  lemma GroupedAreReal(edges: EdgesByFirstLock, orders: seq<LockOrderFact>, facts: EntryFacts)
    requires Groups(edges, orders, facts) && ByFirst(edges)
    ensures GroupsReal(edges, orders, facts)
  {
    forall order
      ensures IsRealEdge(order, orders, facts) <==> IsEdge(order, orders, facts)
    {
    }
    hide IsRealEdge, IsEdge;
    forall lock, order | lock in edges && order in edges[lock]
      ensures order.firstLockId == lock && IsRealEdge(order, orders, facts)
    {
      var k :| 0 <= k < |edges[lock]| && edges[lock][k] == order;
    }
  }

  ghost predicate Groups(edges: EdgesByFirstLock, orders: seq<LockOrderFact>, facts: EntryFacts) {
    forall order :: IsEdge(order, orders, facts) <==> order.firstLockId in edges && order in edges[order.firstLockId]
  }

  ghost predicate ByFirst(edges: EdgesByFirstLock) {
    forall lock, k | lock in edges && 0 <= k < |edges[lock]| :: edges[lock][k].firstLockId == lock
  }

  /** The orders of `orders` from one lock that the search runs on, as collected. */
  function EdgesFrom(orders: seq<LockOrderFact>, facts: EntryFacts, lock: string): seq<LockOrderFact> {
    if orders == [] then []
    else
      var before, last := EdgesFrom(orders[..|orders| - 1], facts, lock), orders[|orders| - 1];
      if last.firstLockId == lock && last.firstLockId != last.secondLockId && Participates(last, facts)
      then before + [last] else before
  }

  lemma EdgesFromMore(orders: seq<LockOrderFact>, order: LockOrderFact, facts: EntryFacts, lock: string)
    ensures EdgesFrom(orders + [order], facts, lock)
         == if order.firstLockId == lock && order.firstLockId != order.secondLockId && Participates(order, facts)
            then EdgesFrom(orders, facts, lock) + [order] else EdgesFrom(orders, facts, lock)
  {
    assert (orders + [order])[..|orders|] == orders;
  }

  /** Each lock that has orders, with its orders as collected. */
  ghost predicate AreEdges(edges: EdgesByFirstLock, orders: seq<LockOrderFact>, facts: EntryFacts) {
    forall lock :: OrdersFrom(edges, lock) == EdgesFrom(orders, facts, lock) && (lock in edges ==> edges[lock] != [])
  }

  method GroupByFirstLock(orders: seq<LockOrderFact>, facts: EntryFacts) returns (edges: EdgesByFirstLock)
    ensures Groups(edges, orders, facts) && ByFirst(edges) && AreEdges(edges, orders, facts)
    ensures GroupsReal(edges, orders, facts)
  {
    hide EdgesFrom, Groups, GroupsReal, ByFirst, Participates;
    edges := map[];
    NoEdges(facts);
    for i := 0 to |orders|
      invariant AreEdges(edges, orders[..i], facts)
    {
      var order := orders[i];
      assert orders[..i + 1] == orders[..i] + [order];
      forall lock
        ensures EdgesFrom(orders[..i + 1], facts, lock)
             == if order.firstLockId == lock && order.firstLockId != order.secondLockId && Participates(order, facts)
                then EdgesFrom(orders[..i], facts, lock) + [order] else EdgesFrom(orders[..i], facts, lock)
      {
        EdgesFromMore(orders[..i], order, facts, lock);
      }
      if order.firstLockId != order.secondLockId && Participates(order, facts) {
        edges := edges[order.firstLockId := OrdersFrom(edges, order.firstLockId) + [order]];
      }
    }
    assert orders[..|orders|] == orders;
    EdgesAreGroups(edges, orders, facts);
    GroupedAreReal(edges, orders, facts);
  }

  lemma {:induction false} InEdgesFrom(orders: seq<LockOrderFact>, facts: EntryFacts, lock: string, order: LockOrderFact)
    ensures order in EdgesFrom(orders, facts, lock) <==> order.firstLockId == lock && IsEdge(order, orders, facts)
  {
    hide Participates;
    if orders != [] {
      InEdgesFrom(orders[..|orders| - 1], facts, lock, order);
      assert orders == orders[..|orders| - 1] + [orders[|orders| - 1]];
    }
  }

  lemma EdgesAreGroups(edges: EdgesByFirstLock, orders: seq<LockOrderFact>, facts: EntryFacts)
    requires AreEdges(edges, orders, facts)
    ensures Groups(edges, orders, facts) && ByFirst(edges)
  {
    hide EdgesFrom, IsEdge;
    forall order
      ensures IsEdge(order, orders, facts) <==> order.firstLockId in edges && order in edges[order.firstLockId]
    {
      InEdgesFrom(orders, facts, order.firstLockId, order);
      assert OrdersFrom(edges, order.firstLockId) == EdgesFrom(orders, facts, order.firstLockId);
    }
    forall lock, k | lock in edges && 0 <= k < |edges[lock]|
      ensures edges[lock][k].firstLockId == lock
    {
      InEdgesFrom(orders, facts, lock, edges[lock][k]);
      assert OrdersFrom(edges, lock) == EdgesFrom(orders, facts, lock);
    }
  }

  lemma NoEdges(facts: EntryFacts)
    ensures forall lock :: EdgesFrom([], facts, lock) == []
  {
  }

  /** The locks are numbered as a depth-first walk first reaches them: from the locks with orders, by name, along their
      orders as collected. */
  ghost predicate NumberedDepthFirst(names: seq<string>, orders: seq<LockOrderFact>, facts: EntryFacts) {
    exists edges, roots ::
      && AreEdges(edges, orders, facts) && GroupsReal(edges, orders, facts)
      && Ascending(roots) && (forall lock :: lock in roots <==> lock in edges)
      && names == FirstReached(edges, AllLocks(edges), roots, [])
  }

  lemma SpaceIsValid(graph: LockGraph, names: seq<string>, numbers: map<string, nat>, edges: EdgesByFirstLock,
                     orders: seq<LockOrderFact>, facts: EntryFacts)
    requires Groups(edges, orders, facts) && ByFirst(edges) && Represents(graph, names, numbers, edges)
    ensures Space(graph, names, numbers, orders, facts).Valid()
  {
    var sp := Space(graph, names, numbers, orders, facts);
    forall i, j | 0 <= i < |graph| && 0 <= j < |graph[i]|
      ensures graph[i][j].lock < |graph| && sp.RowSound(i, graph[i][j])
    {
      RowIsSound(sp, edges, i, j);
    }
    forall order | sp.Edge(order)
      ensures order.firstLockId in numbers && order.secondLockId in numbers && sp.Listed(order)
    {
      EdgeIsListed(sp, edges, order);
    }
  }

  lemma RowIsSound(sp: Space, edges: EdgesByFirstLock, i: nat, j: nat)
    requires Groups(edges, sp.orders, sp.facts) && ByFirst(edges)
    requires Represents(sp.graph, sp.names, sp.numbers, edges) && i < |sp.graph| && j < |sp.graph[i]|
    ensures sp.graph[i][j].lock < |sp.graph| && sp.RowSound(i, sp.graph[i][j])
  {
    var row, orders := sp.graph[i], OrdersFrom(edges, sp.names[i]);
    assert RowRepresents(row, sp.numbers, orders);
    InOrdersTo(orders, sp.numbers, row[j].lock, row[j].orders[0]);
    forall k | 0 <= k < |row[j].orders|
      ensures sp.Edge(row[j].orders[k])
      ensures row[j].orders[k].firstLockId == sp.names[i]
      ensures row[j].lock < |sp.names| && row[j].orders[k].secondLockId == sp.names[row[j].lock]
    {
      InOrdersTo(orders, sp.numbers, row[j].lock, row[j].orders[k]);
    }
  }

  lemma EdgeIsListed(sp: Space, edges: EdgesByFirstLock, order: LockOrderFact)
    requires Groups(edges, sp.orders, sp.facts) && ByFirst(edges)
    requires Represents(sp.graph, sp.names, sp.numbers, edges) && sp.Edge(order)
    ensures order.firstLockId in sp.numbers && order.secondLockId in sp.numbers && sp.Listed(order)
  {
    assert order.firstLockId in AllLocks(edges) && order.secondLockId in AllLocks(edges);
    var row := sp.graph[sp.numbers[order.firstLockId]];
    assert RowRepresents(row, sp.numbers, edges[order.firstLockId]);
    var j :| 0 <= j < |row| && row[j].lock == sp.numbers[order.secondLockId];
    InOrdersTo(edges[order.firstLockId], sp.numbers, row[j].lock, order);
  }

  // ----- from the search to the report ---------------------------------------------------------

  /** The lowest-numbered lock of a cycle among its first `n` orders. */
  lemma {:induction false} Lowest(sp: Space, c: Cycle, n: nat) returns (k: nat)
    requires sp.Valid() && 0 < n <= |c|
    requires forall i | 0 <= i < |c| :: c[i].firstLockId in sp.numbers
    ensures k < n && forall i | 0 <= i < n :: sp.numbers[c[k].firstLockId] <= sp.numbers[c[i].firstLockId]
  {
    hide Space.Valid;
    if n == 1 {
      k := 0;
    } else {
      k := Lowest(sp, c, n - 1);
      if sp.numbers[c[n - 1].firstLockId] < sp.numbers[c[k].firstLockId] {
        k := n - 1;
      }
    }
  }

  lemma FirstsNumbered(sp: Space, c: Cycle)
    requires sp.Valid() && Ungated(c, sp.orders, sp.facts)
    ensures forall i | 0 <= i < |c| :: c[i].firstLockId in sp.numbers
  {
    forall i | 0 <= i < |c|
      ensures c[i].firstLockId in sp.numbers
    {
      assert c[i] in c && sp.Edge(c[i]);
    }
  }

  /** Some rotation of a cycle is listed from its lowest-numbered lock. */
  lemma RotatedCandidate(sp: Space, c: Cycle) returns (start: nat, r: Cycle)
    requires sp.Valid() && Ungated(c, sp.orders, sp.facts)
    ensures start < |sp.names| && Candidate(sp, start, r) && Key(r) == Key(c) && (AddressOrdered(r) <==> AddressOrdered(c))
    ensures LowestOf(sp, Key(c), start)
  {
    FirstsNumbered(sp, c);
    var k := Lowest(sp, c, |c|);
    RotationInvariant(c, k, sp.orders, sp.facts);
    r := Rotated(c, k);
    start := sp.numbers[c[k].firstLockId];
    CandidateFrom(sp, c, k, start);
    LowestOfKey(sp, c, k);
  }

  /** `start` numbers the lowest of the locks the edges lead from. */
  ghost predicate LowestOf(sp: Space, key: CycleKey, start: nat) {
    && (exists edge | edge in key :: edge.0 in sp.numbers && sp.numbers[edge.0] == start)
    && (forall edge | edge in key && edge.0 in sp.numbers :: start <= sp.numbers[edge.0])
  }

  lemma LowestOfKey(sp: Space, c: Cycle, k: nat)
    requires k < |c| && forall i | 0 <= i < |c| :: c[i].firstLockId in sp.numbers
    requires forall i | 0 <= i < |c| :: sp.numbers[c[k].firstLockId] <= sp.numbers[c[i].firstLockId]
    ensures LowestOf(sp, Key(c), sp.numbers[c[k].firstLockId])
  {
    hide Key;
    var edge := (c[k].firstLockId, c[k].secondLockId);
    assert HasEdge(c, edge);
    InKey(c, edge);
    forall edge | edge in Key(c) && edge.0 in sp.numbers
      ensures sp.numbers[c[k].firstLockId] <= sp.numbers[edge.0]
    {
      InKey(c, edge);
    }
  }

  lemma CandidateFrom(sp: Space, c: Cycle, k: nat, start: nat)
    requires sp.Valid() && DistinctFirsts(c) && k < |c| && Ungated(Rotated(c, k), sp.orders, sp.facts)
    requires forall i | 0 <= i < |c| :: c[i].firstLockId in sp.numbers
    requires start == sp.numbers[c[k].firstLockId]
    requires forall i | 0 <= i < |c| :: start <= sp.numbers[c[i].firstLockId]
    ensures start < |sp.names| && Candidate(sp, start, Rotated(c, k))
  {
    hide Ungated, Space.Valid, DistinctFirsts;
    NumberNames(sp, c[k].firstLockId);
    var r := Rotated(c, k);
    forall i | 0 < i < |r|
      ensures r[i].firstLockId in sp.numbers && sp.numbers[r[i].firstLockId] > start
    {
      var i' := if i + k < |c| then i + k else i + k - |c|;
      assert r[i] == c[i'] && i' != k;
      FirstsApart(c, i', k);
      NumberNames(sp, c[i'].firstLockId);
    }
  }

  lemma FirstsApart(c: Cycle, i: nat, j: nat)
    requires DistinctFirsts(c) && i < |c| && j < |c| && i != j
    ensures c[i].firstLockId != c[j].firstLockId
  {
    assert if i < j then c[i].firstLockId != c[j].firstLockId else c[j].firstLockId != c[i].firstLockId;
  }

  lemma NumberNames(sp: Space, lock: string)
    requires sp.Valid() && lock in sp.numbers
    ensures sp.numbers[lock] < |sp.names| && sp.names[sp.numbers[lock]] == lock
  {
  }

  lemma JudgedIsUngated(sp: Space, c: Cycle)
    requires sp.Valid() && Judged(sp, c)
    ensures Ungated(c, sp.orders, sp.facts) && ListedFromLowest(sp.names, c)
  {
    var start :| 0 <= start < |sp.names| && Candidate(sp, start, c);
    assert c[0].firstLockId == sp.names[start];
    forall i | 0 < i < |c|
      ensures c[i].firstLockId in sp.names[start + 1..]
    {
      var n := sp.numbers[c[i].firstLockId];
      assert sp.names[start + 1..][n - start - 1] == c[i].firstLockId;
    }
  }

  /** The walk from the lowest-numbered lock of these edges needs no more than its share. */
  ghost predicate WithinShare(sp: Space, key: CycleKey)
    requires InRange(sp.graph)
  {
    exists start | 0 <= start < |sp.graph| :: LowestOf(sp, key, start) && Effort(sp.graph, sp.facts, start) <= 65536
  }

  /** Complete or not, the report has every cycle whose walk stays within its share; only a complete one leaves
      address-ordered cycles out. */
  ghost predicate ReportsWithinShare(report: Report, sp: Space)
    requires InRange(sp.graph)
  {
    forall c | Ungated(c, sp.orders, sp.facts) && (report.searchIncomplete || !AddressOrdered(c))
               && WithinShare(sp, Key(c)) :: Reports(report.cycles, Key(c))
  }

  /** What `StartCovered` says of each start within its share, said of each cycle. */
  lemma CoveredIsReported(sp: Space, cycles: seq<Cycle>, keys: set<CycleKey>, complete: bool, report: Report, c: Cycle)
    requires sp.Valid() && Sound(sp, cycles, keys) && report.cycles == cycles && report.searchIncomplete == !complete
    requires |sp.graph| == |sp.names| && InRange(sp.graph)
    requires forall s | 0 <= s < |sp.graph| && Effort(sp.graph, sp.facts, s) <= 65536 ::
               StartCovered(sp, s, keys, complete)
    requires Ungated(c, sp.orders, sp.facts) && !(complete && AddressOrdered(c))
    requires WithinShare(sp, Key(c)) || forall s | 0 <= s < |sp.graph| :: Effort(sp.graph, sp.facts, s) <= 65536
    ensures Reports(cycles, Key(c))
  {
    hide Space.Valid, Judged, Ungated, AddressOrdered, Key, InRange, Effort;
    var start, r := RotatedCandidate(sp, c);
    assert StartCovered(sp, start, keys, complete);
    var i :| 0 <= i < |cycles| && Key(cycles[i]) == Key(c);
    assert OnKey(cycles, i, Key(c));
  }

  lemma SearchJudges(sp: Space, cycles: seq<Cycle>, keys: set<CycleKey>, complete: bool, report: Report)
    requires sp.Valid() && Sound(sp, cycles, keys) && report.cycles == cycles && report.searchIncomplete == !complete
    requires complete ==> NoneAddressOrdered(cycles)
    requires |sp.graph| == |sp.names| && InRange(sp.graph)
    requires forall s | 0 <= s < |sp.graph| && Effort(sp.graph, sp.facts, s) <= 65536 ::
               StartCovered(sp, s, keys, complete)
    requires complete ==> forall s | 0 <= s < |sp.graph| :: Effort(sp.graph, sp.facts, s) <= 65536
    ensures Judges(report, sp.orders, sp.facts) && ReportsWithinShare(report, sp)
    ensures forall i | 0 <= i < |cycles| :: ListedFromLowest(sp.names, cycles[i])
  {
    hide Space.Valid, Judged, Ungated, AddressOrdered, Key, StartCovered, InRange, Effort, WithinShare, Reports;
    forall i | 0 <= i < |cycles|
      ensures Ungated(cycles[i], sp.orders, sp.facts) && ListedFromLowest(sp.names, cycles[i])
    {
      JudgedIsUngated(sp, cycles[i]);
    }
    forall c | Ungated(c, sp.orders, sp.facts) && !(complete && AddressOrdered(c)) && (complete || WithinShare(sp, Key(c)))
      ensures Reports(cycles, Key(c))
    {
      CoveredIsReported(sp, cycles, keys, complete, report, c);
    }
  }

  /** Reports each lock a thread reacquires, and each cycle of orders that may deadlock; the search is incomplete
      exactly when the walk from some lock needs more than its share. */
  method Run(orders: seq<LockOrderFact>, facts: EntryFacts, recursiveLockIds: set<string>)
    returns (report: Report, ghost sp: Space)
    ensures report.selfDeadlocks == SelfDeadlocks(orders, recursiveLockIds)
    ensures ListsSelfDeadlocks(report, orders, recursiveLockIds)
    ensures forall i, order | 0 <= i < |report.cycles| && order in report.cycles[i] :: IsRealEdge(order, orders, facts)
    ensures forall i | 0 <= i < |report.cycles| :: AllMeet(report.cycles[i], facts)
    ensures Judges(report, orders, facts)
    ensures sp.Valid() && sp.orders == orders && sp.facts == facts
    ensures NumberedDepthFirst(sp.names, orders, facts)
    ensures forall i | 0 <= i < |report.cycles| :: ListedFromLowest(sp.names, report.cycles[i])
    ensures InRange(sp.graph) && ReportsWithinShare(report, sp)
    ensures report.searchIncomplete
       <==> exists start | 0 <= start < |sp.graph| :: Effort(sp.graph, facts, start) > 65536
  {
    hide Represents, Groups, GroupsReal, ByFirst, Space.Valid, Sound, NoneAddressOrdered, StartCovered, Judges,
         ListedFromLowest, ReportsWithinShare, InRange, Effort, AreEdges, FirstReached, Ascending;
    var selfDeadlocks: seq<LockOrderFact> := [];
    for i := 0 to |orders|
      invariant selfDeadlocks == SelfDeadlocks(orders[..i], recursiveLockIds)
    {
      assert orders[..i + 1][..i] == orders[..i];
      if IsSelfDeadlock(orders[i], recursiveLockIds) {
        selfDeadlocks := selfDeadlocks + [orders[i]];
      }
    }
    assert orders[..|orders|] == orders;

    var edges := GroupByFirstLock(orders, facts);
    var orderedRoots := Sorted(edges.Keys);
    var graph, listed, numbers := BuildLockGraph(edges, orderedRoots);
    SpaceIsValid(graph, listed, numbers, edges, orders, facts);
    assert NumberedDepthFirst(listed, orders, facts);
    sp := Space(graph, listed, numbers, orders, facts);
    var search := new Search(graph, facts, sp);
    var complete := search.ReportDeadlockingCycles();
    report := Report(selfDeadlocks, search.reported, !complete);
    SearchJudges(sp, search.reported, search.emittedCycleKeys, complete, report);
    ReportIsReal(report, orders, facts, recursiveLockIds);
  }

  /** Every two orders of the cycle may be taken at once. */
  ghost predicate AllMeet(c: Cycle, facts: EntryFacts) {
    forall j, k | 0 <= j < k < |c| :: OrdersMeet(c[j], c[k], facts)
  }

  lemma ParallelMeet(c: Cycle, facts: EntryFacts)
    ensures PairwiseParallel(c, facts) ==> AllMeet(c, facts)
  {
    hide InParallel, OrdersMeet;
    if PairwiseParallel(c, facts) {
      forall j, k | 0 <= j < k < |c|
        ensures OrdersMeet(c[j], c[k], facts)
      {
        InParallelIff(c[j], c[k], facts);
      }
    }
  }

  lemma ReportIsReal(report: Report, orders: seq<LockOrderFact>, facts: EntryFacts, recursiveLockIds: set<string>)
    requires Judges(report, orders, facts) && report.selfDeadlocks == SelfDeadlocks(orders, recursiveLockIds)
    ensures ListsSelfDeadlocks(report, orders, recursiveLockIds)
    ensures forall i, order | 0 <= i < |report.cycles| && order in report.cycles[i] :: IsRealEdge(order, orders, facts)
    ensures forall i | 0 <= i < |report.cycles| :: AllMeet(report.cycles[i], facts)
  {
    forall i | 0 <= i < |report.cycles|
      ensures AllMeet(report.cycles[i], facts)
    {
      ParallelMeet(report.cycles[i], facts);
    }
    hide AllMeet;
    hide SelfDeadlocks, IsCycle, PairwiseParallel, HasGate, MayDeadlock, Reports;
    forall order
      ensures multiset(report.selfDeadlocks)[order]
           == if order.firstLockId == order.secondLockId && order.firstLockId !in recursiveLockIds
              then multiset(orders)[order] else 0
    {
      SelfDeadlocksAre(orders, recursiveLockIds, order);
    }
  }
}
