/** The search for cycles of lock orders that may deadlock. */
module CycleSearch {
  import opened Facts
  import opened LockCycles
  import opened LockGraphs

  /** Orders the walk from one lock may examine. */
  const MAX_ORDERS_EXAMINED_PER_LOCK: nat := 65536

  /** The numbered graph together with the orders it was built from. */
  datatype Space = Space(graph: LockGraph, names: seq<string>, numbers: map<string, nat>,
                         orders: seq<LockOrderFact>, facts: EntryFacts)
  {
    ghost predicate Edge(order: LockOrderFact) {
      IsEdge(order, orders, facts)
    }

    /** Each order of the graph joins the two locks it stands between, and every edge is there. */
    ghost predicate Valid() {
      && |graph| == |names| && IsNumbering(numbers, names)
      && (forall i, j | 0 <= i < |graph| && 0 <= j < |graph[i]| ::
            graph[i][j].lock < |graph| && RowSound(i, graph[i][j]))
      && (forall order | Edge(order) ::
            order.firstLockId in numbers && order.secondLockId in numbers && Listed(order))
    }

    ghost predicate RowSound(i: nat, successor: LockSuccessor)
      requires i < |names| && successor.lock < |names|
    {
      forall k | 0 <= k < |successor.orders| ::
        && Edge(successor.orders[k])
        && successor.orders[k].firstLockId == names[i]
        && successor.orders[k].secondLockId == names[successor.lock]
    }

    ghost predicate Listed(order: LockOrderFact)
      requires |graph| == |names| && IsNumbering(numbers, names)
      requires order.firstLockId in numbers && order.secondLockId in numbers
    {
      exists j | 0 <= j < |graph[numbers[order.firstLockId]]| ::
        && graph[numbers[order.firstLockId]][j].lock == numbers[order.secondLockId]
        && order in graph[numbers[order.firstLockId]][j].orders
    }
  }

  // ----- what the walk from one lock is to find ---------------------------------------------

  /** A choice of orders around a cycle whose lowest-numbered lock is `start`, listed from it, that nothing but
      the addresses rules out. */
  ghost predicate Candidate(sp: Space, start: nat, c: Cycle)
    requires sp.Valid() && start < |sp.names|
  {
    && Ungated(c, sp.orders, sp.facts)
    && c[0].firstLockId == sp.names[start]
    && forall i | 0 < i < |c| :: c[i].firstLockId in sp.numbers && sp.numbers[c[i].firstLockId] > start
  }

  /** The edges of the cycles reported, and of those set aside because the choice that closed them is address-ordered. */
  datatype Found = Found(emitted: set<CycleKey>, setAside: set<CycleKey>) {
    ghost predicate Has(c: Cycle) {
      if AddressOrdered(c) then Key(c) in setAside else Key(c) in emitted
    }

    predicate Within(more: Found) {
      emitted <= more.emitted && setAside <= more.setAside
    }
  }

  /** The choices starting with `path` and going on with `order` are reported, or set aside. */
  ghost predicate Covered(sp: Space, start: nat, path: Cycle, order: LockOrderFact, keys: Found)
    requires sp.Valid() && start < |sp.names|
  {
    forall c | Candidate(sp, start, c) && path + [order] <= c :: keys.Has(c)
  }

  /** The choices starting with `path` are reported, or set aside. */
  ghost predicate AllCovered(sp: Space, start: nat, path: Cycle, keys: Found)
    requires sp.Valid() && start < |sp.names|
  {
    forall c | Candidate(sp, start, c) && path <= c && |path| < |c| :: keys.Has(c)
  }

  /** Orders from `start` to `lock`, each taken in parallel with the others, through higher locks met once. */
  ghost predicate PathTo(sp: Space, start: nat, path: Cycle, lock: nat)
    requires sp.Valid() && start < |sp.names| && lock < |sp.names|
  {
    && (forall i | 0 <= i < |path| :: sp.Edge(path[i]) && sp.numbers[path[i].secondLockId] > start)
    && (forall i | 0 < i < |path| :: path[i].firstLockId == path[i - 1].secondLockId)
    && (forall i, j | 0 <= i < j < |path| :: path[i].secondLockId != path[j].secondLockId)
    && (if path == [] then lock == start
        else path[0].firstLockId == sp.names[start] && path[|path| - 1].secondLockId == sp.names[lock])
    && PairwiseParallel(path, sp.facts)
  }

  predicate ReachedBy(path: Cycle, name: string) {
    exists i | 0 <= i < |path| :: path[i].secondLockId == name
  }

  ghost predicate Marks(sp: Space, onPath: seq<bool>, path: Cycle)
    requires sp.Valid()
  {
    |onPath| == |sp.names| && forall k | 0 <= k < |onPath| :: onPath[k] <==> ReachedBy(path, sp.names[k])
  }

  /** Every higher lock with an order to `start`, or to a lock that leads to it, leads to it. */
  ghost predicate LeadsClosed(sp: Space, start: nat, leads: seq<bool>)
    requires sp.Valid()
  {
    && |leads| == |sp.names|
    && forall order | sp.Edge(order) && sp.numbers[order.firstLockId] > start
                      && (sp.numbers[order.secondLockId] == start || leads[sp.numbers[order.secondLockId]]) ::
         leads[sp.numbers[order.firstLockId]]
  }

  ghost predicate LeadsAbove(start: nat, leads: seq<bool>) {
    forall k | 0 <= k < |leads| && leads[k] :: k > start
  }

  // ----- small facts about extending a path ------------------------------------------------

  /** An order that closes on `start` ends the choice. */
  lemma ClosingEnds(sp: Space, start: nat, path: Cycle, order: LockOrderFact, c: Cycle)
    requires sp.Valid() && start < |sp.names| && Candidate(sp, start, c)
    requires path + [order] <= c && order.secondLockId == sp.names[start]
    ensures c == path + [order]
  {
    assert c[|path|] == order;
    assert c[|path|].secondLockId == c[Next(c, |path|)].firstLockId;
  }

  /** Another order goes to a higher lock, not met yet, and the choice goes on. */
  lemma GoesOn(sp: Space, start: nat, path: Cycle, order: LockOrderFact, c: Cycle)
    requires sp.Valid() && start < |sp.names| && Candidate(sp, start, c)
    requires path + [order] <= c && order.secondLockId != sp.names[start]
    ensures |c| > |path| + 1 && c[|path| + 1].firstLockId == order.secondLockId
    ensures order.secondLockId in sp.numbers && sp.numbers[order.secondLockId] > start
    ensures !ReachedBy(path, order.secondLockId)
  {
    assert c[|path|] == order;
    assert c[|path|].secondLockId == c[Next(c, |path|)].firstLockId;
    forall i | 0 <= i < |path|
      ensures path[i].secondLockId != order.secondLockId
    {
      assert c[i] == path[i] && c[i].secondLockId == c[Next(c, i)].firstLockId;
    }
  }

  /** The locks past the first lead back to it. */
  lemma {:induction false} CycleLeads(sp: Space, start: nat, leads: seq<bool>, c: Cycle, i: nat)
    requires sp.Valid() && start < |sp.names| && Candidate(sp, start, c) && LeadsClosed(sp, start, leads)
    requires 0 < i < |c|
    ensures leads[sp.numbers[c[i].firstLockId]]
    decreases |c| - i
  {
    assert c[i] in c && sp.Edge(c[i]);
    if i + 1 < |c| {
      CycleLeads(sp, start, leads, c, i + 1);
      assert Next(c, i) == i + 1;
    } else {
      assert Next(c, i) == 0;
    }
  }

  /** Nothing goes on through a successor the walk skips. */
  lemma SkippedCovered(sp: Space, start: nat, path: Cycle, lock: nat, leads: seq<bool>, onPath: seq<bool>,
                       order: LockOrderFact, target: nat, keys: Found)
    requires sp.Valid() && start < |sp.names| && lock < |sp.names| && target < |sp.names|
    requires LeadsClosed(sp, start, leads) && Marks(sp, onPath, path)
    requires order.secondLockId == sp.names[target] && target != start
    requires !leads[target] || onPath[target]
    ensures Covered(sp, start, path, order, keys)
  {
    forall c | Candidate(sp, start, c) && path + [order] <= c
      ensures false
    {
      GoesOn(sp, start, path, order, c);
      CycleLeads(sp, start, leads, c, |path| + 1);
    }
  }

  /** Nothing goes on through an order that cannot run in parallel with one already taken. */
  lemma UnparallelCovered(sp: Space, start: nat, path: Cycle, order: LockOrderFact, keys: Found)
    requires sp.Valid() && start < |sp.names|
    requires exists i | 0 <= i < |path| :: !InParallel(path[i], order, sp.facts)
    ensures Covered(sp, start, path, order, keys)
  {
    var i :| 0 <= i < |path| && !InParallel(path[i], order, sp.facts);
    forall c | sp.Valid() && path + [order] <= c
      ensures !Candidate(sp, start, c)
    {
      assert c[i] == path[i] && c[|path|] == order;
      assert !InParallel(c[i], c[|path|], sp.facts);
    }
  }

  lemma PathGrows(sp: Space, start: nat, path: Cycle, lock: nat, order: LockOrderFact, target: nat)
    requires sp.Valid() && start < |sp.names| && lock < |sp.names| && target < |sp.names|
    requires PathTo(sp, start, path, lock) && sp.Edge(order)
    requires order.firstLockId == sp.names[lock] && order.secondLockId == sp.names[target]
    requires start < target && !ReachedBy(path, sp.names[target])
    requires forall i | 0 <= i < |path| :: InParallel(path[i], order, sp.facts)
    ensures PathTo(sp, start, path + [order], target)
  {
    hide Space.Valid, Space.Edge, PairwiseParallel, InParallel;
    NumbersOf(sp, target);
    ParallelGrows(path, order, sp.facts);
    var longer := path + [order];
    assert forall i | 0 <= i < |path| :: longer[i] == path[i];
    assert longer[|path|] == order;
  }

  lemma NumbersOf(sp: Space, lock: nat)
    requires sp.Valid() && lock < |sp.names|
    ensures sp.names[lock] in sp.numbers && sp.numbers[sp.names[lock]] == lock
  {
  }

  /** A path closed on its start is a cycle from its lowest-numbered lock. */
  lemma PathCloses(sp: Space, start: nat, path: Cycle, lock: nat, order: LockOrderFact)
    requires sp.Valid() && start < |sp.names| && lock < |sp.names|
    requires PathTo(sp, start, path, lock) && sp.Edge(order)
    requires order.firstLockId == sp.names[lock] && order.secondLockId == sp.names[start]
    requires forall i | 0 <= i < |path| :: InParallel(path[i], order, sp.facts)
    requires !HasGate(path + [order])
    ensures Candidate(sp, start, path + [order])
  {
    hide Space.Valid, PairwiseParallel, InParallel, HasGate, IsCycle, IsEdge;
    var c := path + [order];
    PathIsCycle(sp, start, path, lock, order);
    ParallelGrows(path, order, sp.facts);
    assert forall i | 0 <= i < |path| :: c[i] == path[i];
    assert forall i | 0 <= i < |c| :: sp.Edge(c[i]);
    forall i | 0 < i < |c|
      ensures c[i].firstLockId in sp.numbers && sp.numbers[c[i].firstLockId] > start
    {
      PathFollows(sp, start, path, lock, order, i);
      assert sp.Edge(path[i - 1]);
      EdgeNumbered(sp, path[i - 1]);
    }
  }

  lemma EdgeNumbered(sp: Space, order: LockOrderFact)
    requires sp.Valid() && sp.Edge(order)
    ensures order.firstLockId in sp.numbers && order.secondLockId in sp.numbers && order.firstLockId != order.secondLockId
  {
  }

  lemma PathFollows(sp: Space, start: nat, path: Cycle, lock: nat, order: LockOrderFact, i: nat)
    requires sp.Valid() && start < |sp.names| && lock < |sp.names| && PathTo(sp, start, path, lock)
    requires order.firstLockId == sp.names[lock] && 0 < i <= |path|
    ensures (path + [order])[i].firstLockId == path[i - 1].secondLockId
  {
    hide Space.Valid, Space.Edge, PairwiseParallel;
  }

  lemma PathIsCycle(sp: Space, start: nat, path: Cycle, lock: nat, order: LockOrderFact)
    requires sp.Valid() && start < |sp.names| && lock < |sp.names|
    requires PathTo(sp, start, path, lock) && sp.Edge(order)
    requires order.firstLockId == sp.names[lock] && order.secondLockId == sp.names[start]
    ensures IsCycle(path + [order])
  {
    hide Space.Valid, Space.Edge, PairwiseParallel, IsCycle;
    var c := path + [order];
    EdgeNumbered(sp, order);
    NumbersOf(sp, start);
    assert path != [];
    assert forall i | 0 <= i < |path| :: c[i] == path[i];
    forall i | 0 < i < |c|
      ensures c[i].firstLockId == c[i - 1].secondLockId
    {
      PathFollows(sp, start, path, lock, order, i);
      assert c[i - 1] == path[i - 1];
    }
    forall i, j | 0 <= i < j < |c|
      ensures c[i].secondLockId != c[j].secondLockId
    {
      EdgeNumbered(sp, path[i]);
      assert sp.numbers[path[i].secondLockId] > start;
    }
    ClosedPathIsCycle(c);
  }

  lemma ParallelGrows(path: Cycle, order: LockOrderFact, facts: EntryFacts)
    requires PairwiseParallel(path, facts)
    requires forall i | 0 <= i < |path| :: InParallel(path[i], order, facts)
    ensures PairwiseParallel(path + [order], facts)
  {
    var c := path + [order];
    forall i, j | 0 <= i < j < |c|
      ensures InParallel(c[i], c[j], facts)
    {
      assert j < |path| ==> InParallel(path[i], path[j], facts);
    }
  }

  lemma ClosedPathIsCycle(c: Cycle)
    requires |c| >= 2 && c[|c| - 1].secondLockId == c[0].firstLockId
    requires forall i | 0 < i < |c| :: c[i].firstLockId == c[i - 1].secondLockId
    requires forall i, j | 0 <= i < j < |c| :: c[i].secondLockId != c[j].secondLockId
    ensures IsCycle(c)
  {
    forall i, j | 0 <= i < j < |c|
      ensures c[i].firstLockId != c[j].firstLockId
    {
      var i', j' := if i == 0 then |c| - 1 else i - 1, if j == 0 then |c| - 1 else j - 1;
      assert c[i'].secondLockId == c[i].firstLockId && c[j'].secondLockId == c[j].firstLockId;
    }
  }

  /** Every cycle was set aside for each of these edge sets. */
  ghost predicate ListsKeys(cycles: seq<Cycle>, keys: set<CycleKey>) {
    forall key | key in keys :: exists i | 0 <= i < |cycles| :: Key(cycles[i]) == key
  }

  lemma ListsOneMore(cycles: seq<Cycle>, keys: set<CycleKey>, c: Cycle)
    requires ListsKeys(cycles, keys)
    ensures ListsKeys(cycles + [c], keys + {Key(c)})
  {
    hide Key;
    var more := cycles + [c];
    assert more[|cycles|] == c;
    forall key | key in keys
      ensures exists i | 0 <= i < |more| :: Key(more[i]) == key
    {
      var i :| 0 <= i < |cycles| && Key(cycles[i]) == key;
      assert more[i] == cycles[i];
    }
  }

  /** Every choice from the start is reported, but for address-ordered ones when the search is complete. */
  ghost predicate StartCovered(sp: Space, start: nat, emitted: set<CycleKey>, complete: bool)
    requires sp.Valid() && start < |sp.names|
  {
    forall c | Candidate(sp, start, c) && !(complete && AddressOrdered(c)) :: Key(c) in emitted
  }

  lemma CoveredAtEnd(sp: Space, start: nat, found: Found, emitted: set<CycleKey>, complete: bool)
    requires sp.Valid() && start < |sp.names| && AllCovered(sp, start, [], found) && found.emitted <= emitted
    requires !complete ==> found.setAside <= emitted
    ensures StartCovered(sp, start, emitted, complete)
  {
    hide Space.Valid, Key, AddressOrdered;
    forall c | Candidate(sp, start, c) && !(complete && AddressOrdered(c))
      ensures Key(c) in emitted
    {
      assert [] <= c;
      assert found.Has(c);
    }
  }

  // ----- the report ------------------------------------------------------------------------

  /** A cycle listed from its lowest-numbered lock, that nothing but the addresses rules out. */
  ghost predicate Judged(sp: Space, c: Cycle)
    requires sp.Valid()
  {
    exists start | 0 <= start < |sp.names| :: Candidate(sp, start, c)
  }

  /** Every cycle reported was judged to be one, on edges no other reported cycle has. */
  ghost predicate Sound(sp: Space, reported: seq<Cycle>, keys: set<CycleKey>)
    requires sp.Valid()
  {
    && (forall i | 0 <= i < |reported| :: Judged(sp, reported[i]) && Key(reported[i]) in keys)
    && (forall key | key in keys :: exists i | 0 <= i < |reported| :: Key(reported[i]) == key)
    && (forall i, j | 0 <= i < j < |reported| :: Key(reported[i]) != Key(reported[j]))
  }

  lemma SoundGrows(sp: Space, reported: seq<Cycle>, keys: set<CycleKey>, c: Cycle)
    requires sp.Valid() && Sound(sp, reported, keys) && Judged(sp, c) && Key(c) !in keys
    ensures Sound(sp, reported + [c], keys + {Key(c)})
  {
    hide Judged, Key, Space.Valid;
    var grown := reported + [c];
    forall key | key in keys + {Key(c)}
      ensures exists i | 0 <= i < |grown| :: Key(grown[i]) == key
    {
      if key in keys {
        var i :| 0 <= i < |reported| && Key(reported[i]) == key;
        assert Key(grown[i]) == key;
      } else {
        assert Key(grown[|reported|]) == key;
      }
    }
  }

  ghost predicate AllJudged(sp: Space, cycles: seq<Cycle>)
    requires sp.Valid()
  {
    forall i | 0 <= i < |cycles| :: Judged(sp, cycles[i])
  }

  ghost predicate NoneAddressOrdered(cycles: seq<Cycle>) {
    forall i | 0 <= i < |cycles| :: !AddressOrdered(cycles[i])
  }

  lemma NoneAddressOrderedGrows(cycles: seq<Cycle>, c: Cycle)
    requires NoneAddressOrdered(cycles) && !AddressOrdered(c)
    ensures NoneAddressOrdered(cycles + [c])
  {
  }

  lemma MoreKeysCover(sp: Space, start: nat, path: Cycle, order: LockOrderFact,
                      keys: Found, more: Found)
    requires sp.Valid() && start < |sp.names| && keys.Within(more) && Covered(sp, start, path, order, keys)
    ensures Covered(sp, start, path, order, more)
  {
  }

  /** The choices going on with any of `orders` are reported. */
  ghost predicate RowCovered(sp: Space, start: nat, path: Cycle, orders: seq<LockOrderFact>, keys: Found)
    requires sp.Valid() && start < |sp.names|
  {
    forall k | 0 <= k < |orders| :: Covered(sp, start, path, orders[k], keys)
  }

  lemma MoreKeysCoverRow(sp: Space, start: nat, path: Cycle, orders: seq<LockOrderFact>,
                         keys: Found, more: Found)
    requires sp.Valid() && start < |sp.names| && keys.Within(more) && RowCovered(sp, start, path, orders, keys)
    ensures RowCovered(sp, start, path, orders, more)
  {
    hide Space.Valid, Covered;
    forall k | 0 <= k < |orders|
      ensures Covered(sp, start, path, orders[k], more)
    {
      MoreKeysCover(sp, start, path, orders[k], keys, more);
    }
  }

  lemma SkippedRowCovered(sp: Space, start: nat, path: Cycle, lock: nat, j: nat, leads: seq<bool>, onPath: seq<bool>,
                          keys: Found)
    requires sp.Valid() && start < |sp.names| && lock < |sp.names| && j < |sp.graph[lock]|
    requires LeadsClosed(sp, start, leads) && Marks(sp, onPath, path)
    requires sp.graph[lock][j].lock != start
    requires !leads[sp.graph[lock][j].lock] || onPath[sp.graph[lock][j].lock]
    ensures RowCovered(sp, start, path, sp.graph[lock][j].orders, keys)
  {
    var successor := sp.graph[lock][j];
    assert sp.RowSound(lock, successor);
    forall k | 0 <= k < |successor.orders|
      ensures Covered(sp, start, path, successor.orders[k], keys)
    {
      SkippedCovered(sp, start, path, lock, leads, onPath, successor.orders[k], successor.lock, keys);
    }
  }

  /** Every choice starting with the path goes on with an order to a successor of its last lock. */
  lemma RowsCover(sp: Space, start: nat, path: Cycle, lock: nat, keys: Found)
    requires sp.Valid() && start < |sp.names| && lock < |sp.names| && PathTo(sp, start, path, lock)
    requires forall j | 0 <= j < |sp.graph[lock]| :: RowCovered(sp, start, path, sp.graph[lock][j].orders, keys)
    ensures AllCovered(sp, start, path, keys)
  {
    hide Space.Valid, Space.RowSound, Candidate, PathTo, Covered, AddressOrdered, Key;
    forall c | Candidate(sp, start, c) && path <= c && |path| < |c|
      ensures keys.Has(c)
    {
      var j, k := NextOrder(sp, start, path, lock, c);
      assert path + [c[|path|]] <= c;
      CoveredKey(sp, start, path, c[|path|], keys, c);
    }
  }

  lemma CoveredKey(sp: Space, start: nat, path: Cycle, order: LockOrderFact, keys: Found, c: Cycle)
    requires sp.Valid() && start < |sp.names| && Covered(sp, start, path, order, keys)
    requires Candidate(sp, start, c) && path + [order] <= c
    ensures keys.Has(c)
  {
  }

  lemma NextOrder(sp: Space, start: nat, path: Cycle, lock: nat, c: Cycle) returns (j: nat, k: nat)
    requires sp.Valid() && start < |sp.names| && lock < |sp.names| && PathTo(sp, start, path, lock)
    requires Candidate(sp, start, c) && path <= c && |path| < |c|
    ensures j < |sp.graph[lock]| && k < |sp.graph[lock][j].orders| && sp.graph[lock][j].orders[k] == c[|path|]
  {
    var order := c[|path|];
    assert order in c && sp.Edge(order) && sp.Listed(order);
    assert order.firstLockId == sp.names[lock] by {
      if path != [] {
        assert c[|path| - 1] == path[|path| - 1] && Next(c, |path| - 1) == |path|;
      }
    }
    j :| 0 <= j < |sp.graph[lock]| && order in sp.graph[lock][j].orders;
    k :| 0 <= k < |sp.graph[lock][j].orders| && sp.graph[lock][j].orders[k] == order;
  }

  lemma GoingOnCovered(sp: Space, start: nat, path: Cycle, order: LockOrderFact, keys: Found)
    requires sp.Valid() && start < |sp.names| && order.secondLockId != sp.names[start]
    requires AllCovered(sp, start, path + [order], keys)
    ensures Covered(sp, start, path, order, keys)
  {
    forall c | Candidate(sp, start, c) && path + [order] <= c
      ensures keys.Has(c)
    {
      GoesOn(sp, start, path, order, c);
    }
  }

  lemma ClosingCovered(sp: Space, start: nat, path: Cycle, order: LockOrderFact, keys: Found)
    requires sp.Valid() && start < |sp.names| && order.secondLockId == sp.names[start]
    requires !HasGate(path + [order]) ==> keys.Has(path + [order])
    ensures Covered(sp, start, path, order, keys)
  {
    forall c | Candidate(sp, start, c) && path + [order] <= c
      ensures keys.Has(c)
    {
      ClosingEnds(sp, start, path, order, c);
    }
  }

  lemma DistinctNames(sp: Space, a: nat, b: nat)
    requires sp.Valid() && a < |sp.names| && b < |sp.names| && a != b
    ensures sp.names[a] != sp.names[b]
  {
  }

  lemma NotReached(sp: Space, onPath: seq<bool>, path: Cycle, target: nat)
    requires sp.Valid() && target < |sp.names| && Marks(sp, onPath, path) && !onPath[target]
    ensures !ReachedBy(path, sp.names[target])
  {
  }

  lemma MarksGrow(sp: Space, onPath: seq<bool>, path: Cycle, order: LockOrderFact, target: nat)
    requires sp.Valid() && target < |sp.names| && Marks(sp, onPath, path) && order.secondLockId == sp.names[target]
    ensures Marks(sp, onPath[target := true], path + [order])
  {
    var grown := path + [order];
    forall k | 0 <= k < |onPath|
      ensures onPath[target := true][k] <==> ReachedBy(grown, sp.names[k])
    {
      if ReachedBy(path, sp.names[k]) {
        var i :| 0 <= i < |path| && path[i].secondLockId == sp.names[k];
        assert grown[i].secondLockId == sp.names[k];
      }
      assert grown[|path|].secondLockId == sp.names[target];
    }
  }

  /** The lock is held at every order of the cycle and is none of the locks they join. */
  ghost predicate SerializesAll(cycle: Cycle, gate: string) {
    forall i | 0 <= i < |cycle| ::
      gate in cycle[i].heldLocks && gate != cycle[i].firstLockId && gate != cycle[i].secondLockId
  }

  lemma GateSerializes(cycle: Cycle, gate: string)
    requires cycle != []
    ensures IsGate(cycle, gate) <==> SerializesAll(cycle, gate)
  {
    assert forall i | 0 <= i < |cycle| :: cycle[i] in cycle;
  }

  method HasCommonGateLock(cycle: Cycle) returns (gated: bool)
    requires cycle != []
    ensures gated <==> HasGate(cycle)
    ensures gated <==> exists gate :: SerializesAll(cycle, gate)
  {
    var locks := CycleLocks(cycle);
    var gates := cycle[0].heldLocks - locks;
    for i := 1 to |cycle|
      invariant forall gate :: gate in gates <==> gate !in locks && forall k | 0 <= k < i :: gate in cycle[k].heldLocks
    {
      gates := gates * (cycle[i].heldLocks - locks);
    }
    gated := gates != {};
    if gated {
      var gate :| gate in gates;
      assert IsGate(cycle, gate);
    } else {
      forall gate
        ensures !IsGate(cycle, gate)
      {
        assert gate !in gates;
      }
    }
    forall gate
      ensures IsGate(cycle, gate) <==> SerializesAll(cycle, gate)
    {
      GateSerializes(cycle, gate);
    }
  }

  method IsAddressOrdered(cycle: Cycle) returns (ordered: bool)
    ensures ordered <==> AddressOrdered(cycle)
  {
    for i := 0 to |cycle|
      invariant forall k | 0 <= k < i :: cycle[k].lowerAddressFirst
    {
      if !cycle[i].lowerAddressFirst {
        assert cycle[i] in cycle;
        return false;
      }
    }
    return true;
  }

  method MayHappenInParallelWithEach(order: LockOrderFact, taken: Cycle, facts: EntryFacts) returns (parallel: bool)
    ensures parallel <==> forall i | 0 <= i < |taken| :: InParallel(taken[i], order, facts)
  {
    for i := 0 to |taken|
      invariant forall k | 0 <= k < i :: InParallel(taken[k], order, facts)
    {
      if !InParallel(taken[i], order, facts) {
        return false;
      }
    }
    return true;
  }

  // ----- how many orders a walk examines ---------------------------------------------------

  ghost function UnmetOf(onPath: seq<bool>): set<nat> {
    set k | 0 <= k < |onPath| && !onPath[k]
  }

  /** What stays the same through one walk. */
  datatype Scene = Scene(graph: LockGraph, facts: EntryFacts, start: nat, leads: seq<bool>) {
    ghost predicate Valid() {
      |leads| == |graph| && forall i, j | 0 <= i < |graph| && 0 <= j < |graph[i]| :: graph[i][j].lock < |graph|
    }

    /** The walk goes to the lock: it closes there, or the lock leads back and is not on the path yet. */
    predicate Goes(onPath: seq<bool>, lock: nat)
      requires lock < |leads| && lock < |onPath|
    {
      lock == start || (leads[lock] && !onPath[lock])
    }
  }

  ghost predicate ParallelWithEach(path: Cycle, order: LockOrderFact, facts: EntryFacts) {
    forall i | 0 <= i < |path| :: InParallel(path[i], order, facts)
  }

  lemma UnmetShrinks(onPath: seq<bool>, lock: nat)
    requires lock < |onPath| && !onPath[lock]
    ensures UnmetOf(onPath[lock := true]) < UnmetOf(onPath)
  {
    assert lock in UnmetOf(onPath) && lock !in UnmetOf(onPath[lock := true]);
  }

  /** The orders examined past one order of the path's last lock: those of the walk it opens, if it opens one. */
  ghost function EffortPast(scene: Scene, path: Cycle, onPath: seq<bool>, order: LockOrderFact, target: nat): nat
    requires scene.Valid() && |onPath| == |scene.graph| && target < |onPath| && scene.Goes(onPath, target)
    decreases UnmetOf(onPath), 0, 0
  {
    if target == scene.start || !ParallelWithEach(path, order, scene.facts) then 0
    else
      UnmetShrinks(onPath, target);
      EffortRows(scene, path + [order], onPath[target := true], target, |scene.graph[target]|)
  }

  /** The orders examined at the first `k` orders to one successor, and past them. */
  ghost function EffortOrders(scene: Scene, path: Cycle, onPath: seq<bool>, successor: LockSuccessor, k: nat): nat
    requires scene.Valid() && |onPath| == |scene.graph| && successor.lock < |onPath| && k <= |successor.orders|
    requires scene.Goes(onPath, successor.lock)
    decreases UnmetOf(onPath), 1, k
  {
    if k == 0 then 0
    else EffortOrders(scene, path, onPath, successor, k - 1) + 1
         + EffortPast(scene, path, onPath, successor.orders[k - 1], successor.lock)
  }

  /** The orders examined at the first `j` successors of the path's last lock, and past them. */
  ghost function EffortRows(scene: Scene, path: Cycle, onPath: seq<bool>, lock: nat, j: nat): nat
    requires scene.Valid() && |onPath| == |scene.graph| && lock < |scene.graph| && j <= |scene.graph[lock]|
    decreases UnmetOf(onPath), 2, j
  {
    if j == 0 then 0
    else
      var successor := scene.graph[lock][j - 1];
      EffortRows(scene, path, onPath, lock, j - 1)
      + if scene.Goes(onPath, successor.lock) then EffortOrders(scene, path, onPath, successor, |successor.orders|) else 0
  }

  ghost function SceneFrom(graph: LockGraph, facts: EntryFacts, start: nat): Scene {
    Scene(graph, facts, start, seq(|graph|, k requires 0 <= k < |graph| => LeadsBack(graph, start, k)))
  }

  /** The orders the walk from `start` examines when nothing stops it. */
  ghost function Effort(graph: LockGraph, facts: EntryFacts, start: nat): nat
    requires InRange(graph) && start < |graph|
  {
    EffortRows(SceneFrom(graph, facts, start), [], seq(|graph|, _ => false), start, |graph[start]|)
  }

  class Search {
    const graph: LockGraph
    const facts: EntryFacts
    ghost const sp: Space

    var start: nat
    var leadsToStart: seq<bool>
    var onPath: seq<bool>
    var path: Cycle
    var examined: nat
    var reported: seq<Cycle>
    var emittedCycleKeys: set<CycleKey>
    var addressOrderedCycles: seq<Cycle>
    var addressOrderedKeys: set<CycleKey>

    constructor (graph: LockGraph, facts: EntryFacts, ghost sp: Space)
      requires sp.Valid() && sp.graph == graph && sp.facts == facts
      ensures this.sp == sp && this.graph == graph && this.facts == facts
      ensures Consistent() && path == [] && onPath == seq(|graph|, _ => false)
    {
      this.graph, this.facts, this.sp := graph, facts, sp;
      start, examined, path := 0, 0, [];
      leadsToStart, onPath := seq(|graph|, _ => false), seq(|graph|, _ => false);
      reported, emittedCycleKeys := [], {};
      addressOrderedCycles, addressOrderedKeys := [], {};
    }

    ghost function Keys(): Found
      reads this
    {
      Found(emittedCycleKeys, addressOrderedKeys)
    }

    ghost predicate Consistent()
      reads this
    {
      && sp.Valid() && sp.graph == graph && sp.facts == facts && |graph| == |sp.names|
      && Sound(sp, reported, emittedCycleKeys) && NoneAddressOrdered(reported)
      && AllJudged(sp, addressOrderedCycles) && ListsKeys(addressOrderedCycles, addressOrderedKeys)
    }

    ghost predicate At(lock: nat)
      reads this
      requires sp.Valid()
    {
      && start < |sp.names| && lock < |sp.names|
      && |leadsToStart| == |onPath| == |sp.names|
      && LeadsClosed(sp, start, leadsToStart) && LeadsAbove(start, leadsToStart)
      && Marks(sp, onPath, path) && PathTo(sp, start, path, lock)
    }

    ghost function Unmet(): set<nat>
      reads this
    {
      UnmetOf(onPath)
    }

    ghost function ThisScene(): Scene
      reads this
    {
      Scene(graph, facts, start, leadsToStart)
    }

    /** Within its share exactly when the orders it had to examine left the count within it. */
    ghost predicate Spent(before: nat, effort: nat, withinShare: bool)
      reads this
    {
      && (withinShare <==> before + effort <= MAX_ORDERS_EXAMINED_PER_LOCK)
      && (withinShare ==> examined == before + effort)
    }

    /** What no part of a walk changes, but for what it reports. */
    ghost function Frame(): (Cycle, seq<bool>, nat, seq<bool>)
      reads this
    {
      (path, onPath, start, leadsToStart)
    }

    /** Reports a cycle unless one on the same edges is reported. */
    method EmitOnce(cycle: Cycle)
      requires sp.Valid() && Sound(sp, reported, emittedCycleKeys) && Judged(sp, cycle)
      modifies this`reported, this`emittedCycleKeys
      ensures Sound(sp, reported, emittedCycleKeys)
      ensures emittedCycleKeys == old(emittedCycleKeys) + {Key(cycle)}
      ensures reported == old(reported) || reported == old(reported) + [cycle]
    {
      hide Space.Valid, Judged, Sound, Key;
      if Key(cycle) !in emittedCycleKeys {
        SoundGrows(sp, reported, emittedCycleKeys, cycle);
        reported := reported + [cycle];
        emittedCycleKeys := emittedCycleKeys + {Key(cycle)};
      } else {
        assert emittedCycleKeys + {Key(cycle)} == emittedCycleKeys;
      }
    }

    /** Judges the choice the path is, once it has closed on `start`. */
    method Close()
      requires Consistent() && start < |sp.names| && path != []
      requires !HasGate(path) ==> Candidate(sp, start, path)
      modifies this`reported, this`emittedCycleKeys, this`addressOrderedCycles, this`addressOrderedKeys
      ensures Consistent() && old(Keys()).Within(Keys())
      ensures !HasGate(path) ==> Keys().Has(path)
    {
      hide Space.Valid, Key, HasGate, AddressOrdered, Sound, Candidate;
      var gated := HasCommonGateLock(path);
      if !gated {
        var ordered := IsAddressOrdered(path);
        if !ordered {
          NoneAddressOrderedGrows(reported, path);
          EmitOnce(path);
        } else if Key(path) !in addressOrderedKeys {
          ListsOneMore(addressOrderedCycles, addressOrderedKeys, path);
          addressOrderedKeys := addressOrderedKeys + {Key(path)};
          addressOrderedCycles := addressOrderedCycles + [path];
        }
      }
    }

    /** Takes `order` from the last lock of the path to `target`; false past the share. */
    method TryOrder(lock: nat, target: nat, order: LockOrderFact) returns (withinShare: bool)
      requires Consistent() && At(lock) && target < |sp.names| && sp.Edge(order)
      requires order.firstLockId == sp.names[lock] && order.secondLockId == sp.names[target]
      requires target == start || (leadsToStart[target] && !onPath[target])
      requires ThisScene().Valid() && examined <= MAX_ORDERS_EXAMINED_PER_LOCK
      modifies this
      ensures Consistent() && Frame() == old(Frame()) && old(Keys()).Within(Keys())
      ensures withinShare ==> Covered(sp, start, path, order, Keys())
      ensures Spent(old(examined), 1 + EffortPast(ThisScene(), path, onPath, order, target), withinShare)
      decreases Unmet(), 0
    {
      hide Space.Valid, Judged, Sound, AllJudged, NoneAddressOrdered, Key, LeadsClosed, Marks, PathTo,
           Covered, AllCovered, Candidate, HasGate, AddressOrdered, InParallel, ReachedBy, EffortRows;
      examined := examined + 1;
      if examined > MAX_ORDERS_EXAMINED_PER_LOCK {
        return false;
      }
      var parallel := MayHappenInParallelWithEach(order, path, facts);
      if !parallel {
        UnparallelCovered(sp, start, path, order, Keys());
        return true;
      }
      ghost var before := path;
      withinShare := true;
      if target == start {
        assert !HasGate(path + [order]) ==> Candidate(sp, start, path + [order]) by {
          if !HasGate(path + [order]) {
            PathCloses(sp, start, path, lock, order);
          }
        }
        path := path + [order];
        Close();
        ClosingCovered(sp, start, before, order, Keys());
      } else {
        NotReached(sp, onPath, path, target);
        MarksGrow(sp, onPath, path, order, target);
        PathGrows(sp, start, path, lock, order, target);
        path := path + [order];
        ghost var marks := onPath;
        DistinctNames(sp, start, target);
        UnmetShrinks(onPath, target);
        onPath := onPath[target := true];
        withinShare := Walk(target);
        onPath := onPath[target := false];
        assert onPath == marks;
        if withinShare {
          GoingOnCovered(sp, start, before, order, Keys());
        }
      }
      path := path[..|path| - 1];
      assert path == before;
    }

    /** Follows the orders from the last lock of the path; false once the share is used up. */
    method Walk(lock: nat) returns (withinShare: bool)
      requires Consistent() && At(lock) && ThisScene().Valid() && examined <= MAX_ORDERS_EXAMINED_PER_LOCK
      modifies this
      ensures Consistent() && Frame() == old(Frame()) && old(Keys()).Within(Keys())
      ensures withinShare ==> AllCovered(sp, start, path, Keys())
      ensures Spent(old(examined), EffortRows(ThisScene(), path, onPath, lock, |graph[lock]|), withinShare)
      decreases Unmet(), 2
    {
      hide Space.Valid, Judged, Sound, AllJudged, NoneAddressOrdered, LeadsClosed, LeadsAbove, Marks, PathTo,
           Covered, AllCovered, RowCovered, EffortOrders, EffortRows;
      ghost var scene := ThisScene();
      EffortNoRows(scene, path, onPath, lock);
      var row := graph[lock];
      for j := 0 to |row|
        invariant Consistent() && Frame() == old(Frame()) && old(Keys()).Within(Keys())
        invariant forall i | 0 <= i < j :: RowCovered(sp, start, path, row[i].orders, Keys())
        invariant Spent(old(examined), EffortRows(scene, path, onPath, lock, j), true)
      {
        EffortOneRow(scene, path, onPath, lock, j);
        var closes := row[j].lock == start;
        InGraph(sp, lock, j);
        if !closes && (!leadsToStart[row[j].lock] || onPath[row[j].lock]) {
          SkippedRowCovered(sp, start, path, lock, j, leadsToStart, onPath, Keys());
          continue;
        }
        ghost var keys := Keys();
        withinShare := TryOrders(lock, j);
        forall i | 0 <= i < j
          ensures RowCovered(sp, start, path, row[i].orders, Keys())
        {
          MoreKeysCoverRow(sp, start, path, row[i].orders, keys, Keys());
        }
        if !withinShare {
          EffortRowsRise(scene, path, onPath, lock, j + 1, |row|);
          return false;
        }
      }
      RowsCover(sp, start, path, lock, Keys());
      return true;
    }

    /** Takes in turn the orders from the last lock of the path to its successor `j`. */
    method TryOrders(lock: nat, j: nat) returns (withinShare: bool)
      requires Consistent() && At(lock) && j < |graph[lock]| && graph[lock][j].lock < |sp.names|
      requires graph[lock][j].lock == start || (leadsToStart[graph[lock][j].lock] && !onPath[graph[lock][j].lock])
      requires ThisScene().Valid() && examined <= MAX_ORDERS_EXAMINED_PER_LOCK
      modifies this
      ensures Consistent() && Frame() == old(Frame()) && old(Keys()).Within(Keys())
      ensures withinShare ==> RowCovered(sp, start, path, graph[lock][j].orders, Keys())
      ensures Spent(old(examined), EffortOrders(ThisScene(), path, onPath, graph[lock][j], |graph[lock][j].orders|), withinShare)
      decreases Unmet(), 1
    {
      hide Space.Valid, Judged, Sound, AllJudged, NoneAddressOrdered, LeadsClosed, LeadsAbove, Marks, PathTo,
           Covered, Space.Edge, EffortOrders, EffortPast;
      var orders := graph[lock][j].orders;
      ghost var scene, successor := ThisScene(), graph[lock][j];
      EffortNoOrders(scene, path, onPath, successor);
      for k := 0 to |orders|
        invariant Consistent() && Frame() == old(Frame()) && old(Keys()).Within(Keys())
        invariant forall i | 0 <= i < k :: Covered(sp, start, path, orders[i], Keys())
        invariant Spent(old(examined), EffortOrders(scene, path, onPath, successor, k), true)
      {
        EffortOneOrder(scene, path, onPath, successor, k);
        ghost var keys := Keys();
        InRow(sp, lock, j, k);
        withinShare := TryOrder(lock, graph[lock][j].lock, orders[k]);
        forall i | 0 <= i < k
          ensures Covered(sp, start, path, orders[i], Keys())
        {
          MoreKeysCover(sp, start, path, orders[i], keys, Keys());
        }
        if !withinShare {
          EffortOrdersRise(scene, path, onPath, successor, k + 1, |orders|);
          return false;
        }
      }
      return true;
    }

    /** Walks from every lock in turn. What an incomplete search may have lost is made up for by the choices set
        aside for their addresses. */
    method ReportDeadlockingCycles() returns (complete: bool)
      requires Consistent() && path == [] && onPath == seq(|graph|, _ => false)
      modifies this
      ensures sp.Valid() && Sound(sp, reported, emittedCycleKeys)
      ensures complete ==> NoneAddressOrdered(reported)
      ensures |graph| == |sp.names| && InRange(graph)
      ensures forall s | 0 <= s < |graph| && Effort(graph, facts, s) <= 65536 ::
                StartCovered(sp, s, emittedCycleKeys, complete)
      ensures complete <==> forall s | 0 <= s < |graph| :: Effort(graph, facts, s) <= 65536
    {
      hide Space.Valid, Judged, Sound, AllJudged, NoneAddressOrdered, LeadsClosed, LeadsAbove, Marks, PathTo,
           AllCovered, InRange, ArePredecessors, ArcsClosed, LeadsBack, EffortRows, Effort;
      GraphInRange(sp);
      var predecessors := Predecessors(graph);
      complete := true;
      for s := 0 to |graph|
        invariant Consistent() && path == [] && onPath == seq(|graph|, _ => false)
        invariant forall t | 0 <= t < s && Effort(graph, facts, t) <= MAX_ORDERS_EXAMINED_PER_LOCK ::
                    AllCovered(sp, t, [], Keys())
        invariant complete <==> forall t | 0 <= t < s :: Effort(graph, facts, t) <= MAX_ORDERS_EXAMINED_PER_LOCK
      {
        start := s;
        leadsToStart := LeadingTo(graph, predecessors, start);
        examined := 0;
        StartsEmpty(sp, start, leadsToStart, onPath);
        EffortFromStart(graph, facts, start, leadsToStart);
        ghost var keys := Keys();
        var withinShare := Walk(start);
        if !withinShare {
          complete := false;
        }
        forall t | 0 <= t < s && Effort(graph, facts, t) <= MAX_ORDERS_EXAMINED_PER_LOCK
          ensures AllCovered(sp, t, [], Keys())
        {
          MoreKeysCoverAll(sp, t, [], keys, Keys());
        }
      }
      ghost var found := Keys();
      if !complete {
        var setAside := addressOrderedCycles;
        for i := 0 to |setAside|
          invariant sp.Valid() && Sound(sp, reported, emittedCycleKeys) && AllJudged(sp, setAside)
          invariant found.emitted <= emittedCycleKeys && forall k | 0 <= k < i :: Key(setAside[k]) in emittedCycleKeys
        {
          JudgedAt(sp, setAside, i);
          EmitOnce(setAside[i]);
        }
        assert found.setAside <= emittedCycleKeys;
      }
      forall s | 0 <= s < |graph| && Effort(graph, facts, s) <= 65536
        ensures StartCovered(sp, s, emittedCycleKeys, complete)
      {
        CoveredAtEnd(sp, s, found, emittedCycleKeys, complete);
      }
    }
  }

  lemma EffortNoRows(scene: Scene, path: Cycle, onPath: seq<bool>, lock: nat)
    requires scene.Valid() && |onPath| == |scene.graph| && lock < |scene.graph|
    ensures EffortRows(scene, path, onPath, lock, 0) == 0
  {
  }

  lemma EffortOneRow(scene: Scene, path: Cycle, onPath: seq<bool>, lock: nat, j: nat)
    requires scene.Valid() && |onPath| == |scene.graph| && lock < |scene.graph| && j < |scene.graph[lock]|
    ensures var successor := scene.graph[lock][j];
            EffortRows(scene, path, onPath, lock, j + 1)
              == EffortRows(scene, path, onPath, lock, j)
                 + if scene.Goes(onPath, successor.lock)
                   then EffortOrders(scene, path, onPath, successor, |successor.orders|) else 0
  {
    hide EffortOrders;
  }

  lemma {:induction false} EffortRowsRise(scene: Scene, path: Cycle, onPath: seq<bool>, lock: nat, i: nat, j: nat)
    requires scene.Valid() && |onPath| == |scene.graph| && lock < |scene.graph| && i <= j <= |scene.graph[lock]|
    ensures EffortRows(scene, path, onPath, lock, i) <= EffortRows(scene, path, onPath, lock, j)
    decreases j
  {
    hide EffortRows, EffortOrders;
    if i < j {
      EffortRowsRise(scene, path, onPath, lock, i, j - 1);
      EffortOneRow(scene, path, onPath, lock, j - 1);
    }
  }

  lemma EffortNoOrders(scene: Scene, path: Cycle, onPath: seq<bool>, successor: LockSuccessor)
    requires scene.Valid() && |onPath| == |scene.graph| && successor.lock < |onPath| && scene.Goes(onPath, successor.lock)
    ensures EffortOrders(scene, path, onPath, successor, 0) == 0
  {
  }

  lemma EffortOneOrder(scene: Scene, path: Cycle, onPath: seq<bool>, successor: LockSuccessor, k: nat)
    requires scene.Valid() && |onPath| == |scene.graph| && successor.lock < |onPath| && scene.Goes(onPath, successor.lock)
    requires k < |successor.orders|
    ensures EffortOrders(scene, path, onPath, successor, k + 1)
         == EffortOrders(scene, path, onPath, successor, k) + 1
            + EffortPast(scene, path, onPath, successor.orders[k], successor.lock)
  {
    hide EffortPast;
  }

  lemma {:induction false} EffortOrdersRise(scene: Scene, path: Cycle, onPath: seq<bool>, successor: LockSuccessor,
                                            i: nat, j: nat)
    requires scene.Valid() && |onPath| == |scene.graph| && successor.lock < |onPath| && scene.Goes(onPath, successor.lock)
    requires i <= j <= |successor.orders|
    ensures EffortOrders(scene, path, onPath, successor, i) <= EffortOrders(scene, path, onPath, successor, j)
    decreases j
  {
    hide EffortOrders, EffortPast;
    if i < j {
      EffortOrdersRise(scene, path, onPath, successor, i, j - 1);
      EffortOneOrder(scene, path, onPath, successor, j - 1);
    }
  }

  lemma EffortFromStart(graph: LockGraph, facts: EntryFacts, start: nat, leads: seq<bool>)
    requires InRange(graph) && start < |graph| && |leads| == |graph|
    requires forall k | 0 <= k < |graph| :: leads[k] <==> LeadsBack(graph, start, k)
    ensures Scene(graph, facts, start, leads).Valid()
    ensures Effort(graph, facts, start)
         == EffortRows(Scene(graph, facts, start, leads), [], seq(|graph|, _ => false), start, |graph[start]|)
  {
    hide LeadsBack, EffortRows;
    assert leads == SceneFrom(graph, facts, start).leads;
  }

  lemma JudgedAt(sp: Space, cycles: seq<Cycle>, i: nat)
    requires sp.Valid() && AllJudged(sp, cycles) && i < |cycles|
    ensures Judged(sp, cycles[i])
  {
  }

  lemma GraphInRange(sp: Space)
    requires sp.Valid()
    ensures InRange(sp.graph)
  {
  }

  lemma MoreKeysCoverAll(sp: Space, start: nat, path: Cycle, keys: Found, more: Found)
    requires sp.Valid() && start < |sp.names| && keys.Within(more) && AllCovered(sp, start, path, keys)
    ensures AllCovered(sp, start, path, more)
  {
  }

  lemma StartsEmpty(sp: Space, start: nat, leads: seq<bool>, onPath: seq<bool>)
    requires sp.Valid() && start < |sp.names| && onPath == seq(|sp.graph|, _ => false)
    requires |leads| == |sp.graph| && LeadsAbove(start, leads) && ArcsClosed(sp.graph, start, leads)
    ensures |onPath| == |sp.names| && LeadsClosed(sp, start, leads) && Marks(sp, onPath, []) && PathTo(sp, start, [], start)
  {
    forall order | sp.Edge(order) && sp.numbers[order.firstLockId] > start
                   && (sp.numbers[order.secondLockId] == start || leads[sp.numbers[order.secondLockId]])
      ensures leads[sp.numbers[order.firstLockId]]
    {
      assert sp.Listed(order);
      assert HasArc(sp.graph, sp.numbers[order.firstLockId], sp.numbers[order.secondLockId]);
    }
  }

  lemma InGraph(sp: Space, lock: nat, j: nat)
    requires sp.Valid() && lock < |sp.graph| && j < |sp.graph[lock]|
    ensures sp.graph[lock][j].lock < |sp.names|
  {
  }

  lemma InRow(sp: Space, lock: nat, j: nat, k: nat)
    requires sp.Valid() && lock < |sp.graph| && j < |sp.graph[lock]| && k < |sp.graph[lock][j].orders|
    ensures sp.graph[lock][j].lock < |sp.names| && sp.Edge(sp.graph[lock][j].orders[k])
    ensures sp.graph[lock][j].orders[k].firstLockId == sp.names[lock]
    ensures sp.graph[lock][j].orders[k].secondLockId == sp.names[sp.graph[lock][j].lock]
  {
    assert sp.RowSound(lock, sp.graph[lock][j]);
  }

  // ----- the locks that lead back to the start ----------------------------------------------

  ghost predicate HasArc(graph: LockGraph, from: nat, to: nat) {
    from < |graph| && HasSuccessor(graph[from], to)
  }

  ghost predicate InRange(graph: LockGraph) {
    forall i, j | 0 <= i < |graph| && 0 <= j < |graph[i]| :: graph[i][j].lock < |graph|
  }

  /** A walk of the graph from its first lock to `start` through locks numbered after it. */
  ghost predicate WalkBack(graph: LockGraph, start: nat, locks: seq<nat>) {
    && |locks| >= 2 && locks[|locks| - 1] == start
    && (forall i | 0 <= i < |locks| - 1 :: locks[i] > start && HasArc(graph, locks[i], locks[i + 1]))
  }

  ghost predicate LeadsBack(graph: LockGraph, start: nat, lock: nat) {
    exists locks :: WalkBack(graph, start, locks) && locks[0] == lock
  }

  lemma LeadsBackThrough(graph: LockGraph, start: nat, lock: nat, next: nat)
    requires lock > start && HasArc(graph, lock, next) && (next == start || LeadsBack(graph, start, next))
    ensures LeadsBack(graph, start, lock)
  {
    if next == start {
      assert WalkBack(graph, start, [lock, start]);
    } else {
      var locks :| WalkBack(graph, start, locks) && locks[0] == next;
      assert WalkBack(graph, start, [lock] + locks);
    }
  }

  lemma {:induction false} WalkBackMarked(graph: LockGraph, start: nat, locks: seq<nat>, leads: seq<bool>)
    requires |leads| == |graph| && InRange(graph) && start < |graph| && WalkBack(graph, start, locks)
    requires ArcsClosed(graph, start, leads)
    ensures locks[0] < |leads| && leads[locks[0]]
    decreases |locks|
  {
    assert HasArc(graph, locks[0], locks[1]);
    if |locks| > 2 {
      WalkBackMarked(graph, start, locks[1..], leads);
    }
  }

  ghost predicate ArcsClosed(graph: LockGraph, start: nat, leads: seq<bool>)
    requires |leads| == |graph|
  {
    forall from: nat, to: nat | from > start && HasArc(graph, from, to) && to < |leads| && (to == start || leads[to]) ::
      leads[from]
  }

  ghost predicate ArePredecessors(graph: LockGraph, predecessors: seq<seq<nat>>) {
    && |predecessors| == |graph|
    && forall from: nat, to: nat | to < |graph| :: from in predecessors[to] <==> HasArc(graph, from, to)
  }

  lemma SuccessorAdded(row: seq<LockSuccessor>, j: nat, t: nat)
    requires j < |row|
    ensures HasSuccessor(row[..j + 1], t) <==> HasSuccessor(row[..j], t) || t == row[j].lock
  {
    assert row[..j + 1][j] == row[j];
    assert forall i | 0 <= i < j :: row[..j + 1][i] == row[..j][i];
  }

  method Predecessors(graph: LockGraph) returns (predecessors: seq<seq<nat>>)
    requires InRange(graph)
    ensures ArePredecessors(graph, predecessors)
  {
    predecessors := seq(|graph|, _ => []);
    for lock := 0 to |graph|
      invariant |predecessors| == |graph|
      invariant forall from: nat, to: nat | to < |graph| ::
                  from in predecessors[to] <==> from < lock && HasArc(graph, from, to)
    {
      var row := graph[lock];
      for j := 0 to |row|
        invariant |predecessors| == |graph|
        invariant forall from: nat, to: nat | to < |graph| ::
                    from in predecessors[to] <==>
                    (from < lock && HasArc(graph, from, to)) || (from == lock && HasSuccessor(row[..j], to))
      {
        var to := row[j].lock;
        forall t: nat
          ensures HasSuccessor(row[..j + 1], t) <==> HasSuccessor(row[..j], t) || t == to
        {
          SuccessorAdded(row, j, t);
        }
        predecessors := predecessors[to := predecessors[to] + [lock]];
      }
      assert row[..|row|] == row;
    }
  }

  ghost function Unmarked(leads: seq<bool>): set<nat> {
    set k | 0 <= k < |leads| && !leads[k]
  }

  ghost predicate MarksLead(graph: LockGraph, start: nat, leads: seq<bool>) {
    forall k | 0 <= k < |leads| && leads[k] :: LeadsBack(graph, start, k)
  }

  ghost predicate OnlyReached(start: nat, leads: seq<bool>, pending: seq<nat>) {
    forall k | 0 <= k < |pending| :: pending[k] < |leads| && (pending[k] == start || leads[pending[k]])
  }

  /** One round of the worklist: marks the predecessors of `reached`, each new one to be followed in turn. */
  method MarkPredecessors(graph: LockGraph, sources: seq<nat>, start: nat, reached: nat,
                          given: seq<bool>, waiting: seq<nat>)
    returns (leads: seq<bool>, pending: seq<nat>)
    requires |given| == |graph| && LeadsAbove(start, given) && MarksLead(graph, start, given)
    requires OnlyReached(start, given, waiting) && reached < |graph| && (reached == start || given[reached])
    requires forall from | from in sources :: HasArc(graph, from, reached)
    ensures |leads| == |graph| && LeadsAbove(start, leads) && MarksLead(graph, start, leads)
    ensures OnlyReached(start, leads, pending) && waiting <= pending
    ensures forall from | from in sources && from > start :: from < |leads| && leads[from]
    ensures forall k | 0 <= k < |leads| :: leads[k] <==> given[k] || k in pending[|waiting|..]
    ensures pending == waiting || Unmarked(leads) < Unmarked(given)
  {
    leads, pending := given, waiting;
    for i := 0 to |sources|
      invariant |leads| == |graph| && LeadsAbove(start, leads) && MarksLead(graph, start, leads)
      invariant OnlyReached(start, leads, pending) && waiting <= pending
      invariant forall k | 0 <= k < i && sources[k] > start :: sources[k] < |leads| && leads[sources[k]]
      invariant forall k | 0 <= k < |leads| :: leads[k] <==> given[k] || k in pending[|waiting|..]
      invariant pending == waiting || Unmarked(leads) < Unmarked(given)
    {
      var predecessor := sources[i];
      assert predecessor in sources;
      if predecessor > start && !leads[predecessor] {
        assert LeadsBack(graph, start, predecessor) by {
          hide LeadsBack, HasArc;
          LeadsBackThrough(graph, start, predecessor, reached);
        }
        assert predecessor in Unmarked(given);
        assert (pending + [predecessor])[|waiting|..] == pending[|waiting|..] + [predecessor];
        leads := leads[predecessor := true];
        pending := pending + [predecessor];
        assert predecessor !in Unmarked(leads);
      }
    }
  }

  /** Every arc into `start`, or into a lock marked and not waiting to be followed, starts at a marked lock. */
  ghost predicate ArcsFollowed(graph: LockGraph, start: nat, leads: seq<bool>, pending: seq<nat>)
    requires |leads| == |graph|
  {
    forall from: nat, to: nat | from > start && HasArc(graph, from, to) && to < |leads| && (to == start || leads[to])
                                && to !in pending :: leads[from]
  }

  /** Marks the locks numbered after `start` from which the orders lead back to it through such locks. */
  method LeadingTo(graph: LockGraph, predecessors: seq<seq<nat>>, start: nat) returns (leads: seq<bool>)
    requires InRange(graph) && ArePredecessors(graph, predecessors) && start < |graph|
    ensures |leads| == |graph| && LeadsAbove(start, leads) && ArcsClosed(graph, start, leads)
    ensures forall k | 0 <= k < |graph| :: leads[k] <==> LeadsBack(graph, start, k)
  {
    hide LeadsBack, HasArc, ArcsFollowed, ArcsClosed, MarksLead, LeadsAbove, ArePredecessors;
    leads := seq(|graph|, _ => false);
    var pending: seq<nat> := [start];
    NothingMarked(graph, start, leads);
    while pending != []
      invariant |leads| == |graph| && LeadsAbove(start, leads) && MarksLead(graph, start, leads)
      invariant OnlyReached(start, leads, pending) && ArcsFollowed(graph, start, leads, pending)
      decreases Unmarked(leads), |pending|
    {
      var reached := pending[|pending| - 1];
      ghost var given, before := leads, pending;
      PredecessorsOf(graph, predecessors, reached);
      leads, pending := MarkPredecessors(graph, predecessors[reached], start, reached, leads, pending[..|pending| - 1]);
      FollowedOneMore(graph, predecessors, start, given, before, leads, pending);
    }
    AllFollowed(graph, start, leads);
  }

  lemma NothingMarked(graph: LockGraph, start: nat, leads: seq<bool>)
    requires start < |graph| && leads == seq(|graph|, _ => false)
    ensures LeadsAbove(start, leads) && MarksLead(graph, start, leads) && ArcsFollowed(graph, start, leads, [start])
  {
  }

  lemma PredecessorsOf(graph: LockGraph, predecessors: seq<seq<nat>>, lock: nat)
    requires ArePredecessors(graph, predecessors) && lock < |graph|
    ensures |predecessors| == |graph| && forall from | from in predecessors[lock] :: HasArc(graph, from, lock)
  {
    hide HasArc;
  }

  lemma AllFollowed(graph: LockGraph, start: nat, leads: seq<bool>)
    requires |leads| == |graph| && InRange(graph) && start < |graph|
    requires MarksLead(graph, start, leads) && ArcsFollowed(graph, start, leads, [])
    ensures ArcsClosed(graph, start, leads)
    ensures forall k | 0 <= k < |graph| :: leads[k] <==> LeadsBack(graph, start, k)
  {
    hide LeadsBack, HasArc;
    forall k | 0 <= k < |graph| && LeadsBack(graph, start, k)
      ensures leads[k]
    {
      LeadsBackMarked(graph, start, k, leads);
    }
  }

  lemma LeadsBackMarked(graph: LockGraph, start: nat, k: nat, leads: seq<bool>)
    requires |leads| == |graph| && InRange(graph) && start < |graph| && ArcsClosed(graph, start, leads)
    requires k < |graph| && LeadsBack(graph, start, k)
    ensures leads[k]
  {
    var locks :| WalkBack(graph, start, locks) && locks[0] == k;
    WalkBackMarked(graph, start, locks, leads);
  }

  lemma FollowedOneMore(graph: LockGraph, predecessors: seq<seq<nat>>, start: nat,
                        given: seq<bool>, before: seq<nat>, leads: seq<bool>, pending: seq<nat>)
    requires |given| == |leads| == |graph| && before != [] && before[|before| - 1] < |graph|
    requires ArePredecessors(graph, predecessors) && ArcsFollowed(graph, start, given, before)
    requires before[..|before| - 1] <= pending
    requires forall from | from in predecessors[before[|before| - 1]] && from > start :: from < |leads| && leads[from]
    requires forall k | 0 <= k < |leads| :: leads[k] <==> given[k] || k in pending[|before| - 1..]
    ensures ArcsFollowed(graph, start, leads, pending)
  {
    hide HasArc;
    forall from: nat, to: nat | from > start && HasArc(graph, from, to) && to < |leads| && (to == start || leads[to])
                                && to !in pending
      ensures from < |leads| && leads[from]
    {
      assert from < |graph| by { ArcSource(graph, from, to); }
      if to == before[|before| - 1] {
        assert from in predecessors[to];
      } else {
        assert forall i | 0 <= i < |before| - 1 :: before[i] == pending[i];
        assert to !in before;
        assert to !in pending[|before| - 1..];
      }
    }
  }

  lemma ArcSource(graph: LockGraph, from: nat, to: nat)
    requires HasArc(graph, from, to)
    ensures from < |graph|
  {
  }
}
