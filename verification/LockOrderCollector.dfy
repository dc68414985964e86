/** The orders in which one function takes locks. */
module LockOrderCollector {
  import opened ControlFlow
  import opened Facts
  import opened LockEffects
  import opened LockFlow
  import opened LockScopeTracker
  import LockIds

  /** Stands, inside a function, for every lock its caller holds at the call. */
  const LOCKS_HELD_BY_CALLER := "%caller"

  /** The object a thread is kept on, and whether only for lack of proof that it holds another. */
  datatype SharedObjectBinding = SharedObjectBinding(symbol: string, keptForLackOfProof: bool)

  /** What the collector is told about the function besides its locks. */
  datatype Context = Context(location: Point -> SourceLocation, liveEntries: Point -> set<string>,
                             startedEntries: Point -> set<string>, sharedObject: Option<SharedObjectBinding>)

  /** The symbol a lock is named after: none for a parameter's, or a name that cannot be read. */
  function SymbolOf(lockId: string): string {
    match LockIds.LockIdRoot(lockId)
    case Some(binding) => if binding.root.Global? then binding.root.symbol else ""
    case None => ""
  }

  /** The held locks that may gate an order: one named after an object kept for lack of proof is none. */
  function GatesAmong(heldLocks: LockSet, c: Context): LockSet {
    if c.sharedObject.None? || !c.sharedObject.value.keptForLackOfProof then heldLocks
    else set lock | lock in heldLocks && SymbolOf(lock) != c.sharedObject.value.symbol
  }

  datatype Order = Order(first: string, second: string, location: SourceLocation, heldLocks: LockSet,
                         liveEntries: set<string>, startedEntries: set<string>, secondIsRecursive: bool)

  /** The two locks and the file, line and column. */
  type OrderKey = (string, string, string, nat, nat)

  function KeyAt(first: string, second: string, location: SourceLocation): OrderKey {
    (first, second, location.file, location.line, location.column)
  }

  function KeyOf(order: Order): OrderKey {
    KeyAt(order.first, order.second, order.location)
  }

  /** The orders found, the acquisitions each stands for, and where to find each by its key. */
  datatype Orders = Orders(facts: seq<Order>, sites: seq<seq<Point>>, indexByKey: map<OrderKey, nat>)

  ghost predicate Indexed(o: Orders) {
    && |o.facts| == |o.sites|
    && (forall i: nat | i < |o.facts| :: KeyOf(o.facts[i]) in o.indexByKey && o.indexByKey[KeyOf(o.facts[i])] == i)
    && (forall key | key in o.indexByKey :: o.indexByKey[key] < |o.facts| && KeyOf(o.facts[o.indexByKey[key]]) == key)
    && (forall i: nat, j: nat, k: nat | i < |o.sites| && j < k < |o.sites[i]| :: o.sites[i][j] != o.sites[i][k])
  }

  /** The order is listed, with `p` among the acquisitions it stands for. */
  ghost predicate Listed(o: Orders, first: string, second: string, location: SourceLocation, p: Point)
    requires Indexed(o)
  {
    var key := KeyAt(first, second, location);
    key in o.indexByKey && p in o.sites[o.indexByKey[key]]
  }

  ghost predicate Grows(before: Orders, after: Orders) {
    && Indexed(before) && Indexed(after) && before.facts <= after.facts
    && (forall key | key in before.indexByKey :: key in after.indexByKey && after.indexByKey[key] == before.indexByKey[key])
    && (forall i: nat | i < |before.sites| :: before.sites[i] <= after.sites[i])
  }

  /** The locks held when the acquisitions of an instruction wait: what it releases is gone. */
  function HeldWaiting(w: Flow, p: Point, locks: LockSet): LockSet {
    HeldAt(w, p.block, p.index, locks) - set lock | lock in ChangeAt(w.effects, p).released
  }

  /** On the path, the lock is held when the acquisitions of `p` wait. */
  ghost predicate WaitsHolding(w: Flow, path: seq<nat>, p: Point, lock: string)
    requires IsBlockPath(w.f, path)
  {
    HeldAfter(w, RunBefore(w.f, path, p), lock) && !DropsLock(w, p, lock)
  }

  /** So on every path that reaches it. */
  ghost predicate CertainlyWaits(w: Flow, p: Point, lock: string) {
    CertainlyHeld(w, p, lock) && !DropsLock(w, p, lock)
  }

  /** The name is read back as one of an object of that symbol. */
  ghost predicate NamedAfter(lockId: string, symbol: string) {
    var root := LockIds.LockIdRoot(lockId);
    if root.Some? && root.value.root.Global? then root.value.root.symbol == symbol else symbol == ""
  }

  /** The lock is no gate: it is named after an object its thread is kept on for lack of proof. */
  ghost predicate NoGate(c: Context, lock: string) {
    c.sharedObject.Some? && c.sharedObject.value.keptForLackOfProof && NamedAfter(lock, c.sharedObject.value.symbol)
  }

  /** One path reaches the acquisition `p` of the order with its first lock and its gates held together; the gates are
      no locks of an unproved object, and leave out no other lock every path to `p` holds. */
  ghost predicate TakenAt(w: Flow, c: Context, order: Order, p: Point, path: seq<nat>) {
    && PathTo(w.f, path, p.block) && w.f.Contains(p)
    && c.location(p) == order.location && Awaited(EffectsAt(w.effects, p), order.second)
    && WaitsHolding(w, path, p, order.first)
    && (forall lock | lock in order.heldLocks :: WaitsHolding(w, path, p, lock) && !NoGate(c, lock))
    && (forall lock | CertainlyWaits(w, p, lock) :: lock in order.heldLocks || NoGate(c, lock))
    && order.liveEntries == c.liveEntries(p) && order.startedEntries == c.startedEntries(p)
    && (order.secondIsRecursive <==> Retakable(EffectsAt(w.effects, p), order.second))
  }

  ghost predicate Taken(w: Flow, c: Context, order: Order) {
    exists p, path :: TakenAt(w, c, order, p, path)
  }

  /** The order says that `second` is taken at the location while `first` is held. */
  ghost predicate Says(order: Order, first: string, second: string, location: SourceLocation) {
    && order.first == first && order.second == second
    && order.location.file == location.file && order.location.line == location.line
    && order.location.column == location.column
  }

  /** `p` is an acquisition the order stands for: it waits there, and some path to it holds the first lock. */
  ghost predicate SiteTaken(w: Flow, c: Context, order: Order, p: Point) {
    && w.f.Contains(p) && Says(order, order.first, order.second, c.location(p))
    && Awaited(EffectsAt(w.effects, p), order.second)
    && exists path :: PathTo(w.f, path, p.block) && WaitsHolding(w, path, p, order.first)
  }

  ghost predicate AllTaken(w: Flow, c: Context, o: Orders) {
    && |o.sites| == |o.facts|
    && (forall i: nat | i < |o.facts| :: Taken(w, c, o.facts[i]))
    && (forall i: nat, p | i < |o.sites| && p in o.sites[i] :: SiteTaken(w, c, o.facts[i], p))
  }

  /** No two orders say the same, and none stands twice for one acquisition. */
  ghost predicate OnePerPlace(o: Orders) {
    && (forall i: nat, j: nat | i < j < |o.facts| ::
          !Says(o.facts[i], o.facts[j].first, o.facts[j].second, o.facts[j].location))
    && (forall i: nat, j: nat, k: nat | i < |o.sites| && j < k < |o.sites[i]| :: o.sites[i][j] != o.sites[i][k])
  }

  lemma SameKeySays(order: Order, first: string, second: string, location: SourceLocation)
    ensures KeyOf(order) == KeyAt(first, second, location) <==> Says(order, first, second, location)
  {
  }

  lemma IndexedIsOnePerPlace(o: Orders)
    requires Indexed(o)
    ensures OnePerPlace(o)
  {
    hide KeyAt;
    forall i: nat, j: nat | i < j < |o.facts|
      ensures !Says(o.facts[i], o.facts[j].first, o.facts[j].second, o.facts[j].location)
    {
      SameKeySays(o.facts[i], o.facts[j].first, o.facts[j].second, o.facts[j].location);
      SameKeySays(o.facts[j], o.facts[j].first, o.facts[j].second, o.facts[j].location);
    }
  }

  /** Some order says so, and stands for the acquisition `p`. */
  ghost predicate SaidAt(o: Orders, first: string, second: string, location: SourceLocation, p: Point) {
    exists i: nat :: i < |o.facts| && i < |o.sites| && Says(o.facts[i], first, second, location) && p in o.sites[i]
  }

  lemma ListedIsSaid(o: Orders, first: string, second: string, location: SourceLocation, p: Point)
    requires Indexed(o) && Listed(o, first, second, location, p)
    ensures SaidAt(o, first, second, location, p)
  {
    var i := o.indexByKey[KeyAt(first, second, location)];
    SameKeySays(o.facts[i], first, second, location);
  }

  // ----- recording -----------------------------------------------------------------------------------

  /** Records one order at `p`: a new fact, or one more acquisition of a fact at the same location. */
  method RecordOrder(o: Orders, order: Order, p: Point) returns (o': Orders)
    requires Indexed(o)
    ensures Grows(o, o') && Listed(o', order.first, order.second, order.location, p)
    ensures o'.facts == if KeyOf(order) in o.indexByKey then o.facts else o.facts + [order]
    ensures forall i: nat, q | i < |o'.facts| && q in o'.sites[i] ::
              (i < |o.facts| && q in o.sites[i]) || (q == p && Says(o'.facts[i], order.first, order.second, order.location))
  {
    var key := KeyOf(order);
    if key in o.indexByKey {
      var index := o.indexByKey[key];
      o' := o;
      if p !in o.sites[index] {
        o' := o.(sites := o.sites[index := o.sites[index] + [p]]);
        assert o'.sites[index][|o.sites[index]|] == p;
      }
      return;
    }
    o' := Orders(o.facts + [order], o.sites + [[p]], o.indexByKey[key := |o.facts|]);
  }

  /** Some path reaches `p` with all of `held` held when its acquisitions wait. */
  ghost predicate HeldTogetherAt(w: Flow, p: Point, held: LockSet) {
    exists path :: PathTo(w.f, path, p.block) && forall lock | lock in held :: WaitsHolding(w, path, p, lock)
  }

  /** What the iteration has at `p`: held together on some path, and nothing every path holds is missing. */
  ghost predicate BetweenPaths(w: Flow, p: Point, held: LockSet) {
    HeldTogetherAt(w, p, held) && forall lock | CertainlyWaits(w, p, lock) :: lock in held
  }

  lemma GatesAre(heldLocks: LockSet, c: Context, lock: string)
    ensures lock in GatesAmong(heldLocks, c) <==> lock in heldLocks && !NoGate(c, lock)
  {
  }

  lemma EffectsMean(w: Flow, p: Point, lock: string)
    ensures lock in ChangeAt(w.effects, p).orderedAcquired <==> Awaited(EffectsAt(w.effects, p), lock)
    ensures lock in ChangeAt(w.effects, p).recursivelyAcquirable <==> Retakable(EffectsAt(w.effects, p), lock)
    ensures lock in ChangeAt(w.effects, p).released <==> DropsLock(w, p, lock)
  {
    ChangeOfIsChange(EffectsAt(w.effects, p), w.effects.guardBindings);
    assert ChangeAt(w.effects, p) == ChangeOf(EffectsAt(w.effects, p), w.effects.guardBindings);
    hide Awaited, Retakable, Dropped, LockEffects.Taken, ChangeOf, ChangeAt, EffectsAt;
    var change := ChangeAt(w.effects, p);
    assert lock in change.orderedAcquired <==> Awaited(EffectsAt(w.effects, p), lock);
    assert lock in change.recursivelyAcquirable <==> Retakable(EffectsAt(w.effects, p), lock);
    assert lock in change.released <==> Dropped(EffectsAt(w.effects, p), w.effects.guardBindings, lock);
  }

  lemma WaitingMeans(w: Flow, path: seq<nat>, p: Point, lock: string)
    requires PathTo(w.f, path, p.block)
    ensures lock in HeldWaiting(w, p, HeldAlong(w, path)) <==> WaitsHolding(w, path, p, lock)
  {
    hide HeldAt, HeldAlong, HeldAfter, RunBefore, ChangeAt, DropsLock;
    HeldAtMeans(w, path, p, lock);
    EffectsMean(w, p, lock);
  }

  lemma OrderIsTaken(w: Flow, c: Context, p: Point, current: LockSet, order: Order)
    requires w.f.Contains(p) && BetweenPaths(w, p, current)
    requires order.first in current && order.heldLocks == GatesAmong(current, c) && order.location == c.location(p)
    requires order.second in ChangeAt(w.effects, p).orderedAcquired && order.liveEntries == c.liveEntries(p)
    requires order.startedEntries == c.startedEntries(p)
    requires order.secondIsRecursive <==> order.second in ChangeAt(w.effects, p).recursivelyAcquirable
    ensures Taken(w, c, order) && SiteTaken(w, c, order, p)
  {
    hide WaitsHolding, CertainlyWaits, NoGate, GatesAmong, ChangeAt, Awaited, Retakable, EffectsAt;
    var path :| PathTo(w.f, path, p.block) && forall lock | lock in current :: WaitsHolding(w, path, p, lock);
    EffectsMean(w, p, order.second);
    forall lock
      ensures lock in order.heldLocks <==> lock in current && !NoGate(c, lock)
    {
      GatesAre(current, c, lock);
    }
    assert TakenAt(w, c, order, p, path);
  }

  ghost predicate ListedFor(o: Orders, second: string, location: SourceLocation, p: Point, held: LockSet)
    requires Indexed(o)
  {
    forall first | first in held :: Listed(o, first, second, location, p)
  }

  lemma GrowingLists(o: Orders, o': Orders, second: string, location: SourceLocation, p: Point, held: LockSet)
    requires Grows(o, o') && ListedFor(o, second, location, p, held)
    ensures ListedFor(o', second, location, p, held)
  {
    forall first | first in held
      ensures Listed(o', first, second, location, p)
    {
      var i := o.indexByKey[KeyAt(first, second, location)];
      assert Listed(o, first, second, location, p) && o.sites[i] <= o'.sites[i];
    }
  }

  lemma GrowsOn(a: Orders, b: Orders, c: Orders)
    requires Grows(a, b) && Grows(b, c)
    ensures Grows(a, c)
  {
    forall i: nat | i < |a.sites|
      ensures a.sites[i] <= c.sites[i]
    {
      assert a.sites[i] <= b.sites[i] <= c.sites[i];
    }
  }

  lemma SaysSameSite(w: Flow, c: Context, order: Order, other: Order, p: Point)
    requires SiteTaken(w, c, order, p) && order.location == c.location(p)
    requires Says(other, order.first, order.second, order.location)
    ensures SiteTaken(w, c, other, p)
  {
    hide WaitsHolding, Awaited, EffectsAt;
  }

  lemma RecordedIsTaken(w: Flow, c: Context, o: Orders, o': Orders, order: Order, p: Point)
    requires AllTaken(w, c, o) && Grows(o, o') && Taken(w, c, order) && SiteTaken(w, c, order, p)
    requires order.location == c.location(p) && (o'.facts == o.facts || o'.facts == o.facts + [order])
    requires forall i: nat, q | i < |o'.facts| && q in o'.sites[i] ::
               (i < |o.facts| && q in o.sites[i]) || (q == p && Says(o'.facts[i], order.first, order.second, order.location))
    ensures AllTaken(w, c, o')
  {
    hide Taken, SiteTaken, Says;
    forall i: nat, q | i < |o'.sites| && q in o'.sites[i]
      ensures SiteTaken(w, c, o'.facts[i], q)
    {
      if i < |o.facts| && q in o.sites[i] {
        assert o'.facts[i] == o.facts[i];
      } else {
        SaysSameSite(w, c, order, o'.facts[i], p);
      }
    }
  }

  /** Records the orders from each held lock to `acquired`. */
  method RecordFrom(w: Flow, c: Context, p: Point, current: LockSet, acquired: string, o: Orders) returns (o': Orders)
    requires Indexed(o) && AllTaken(w, c, o) && w.f.Contains(p) && BetweenPaths(w, p, current)
    requires acquired in ChangeAt(w.effects, p).orderedAcquired
    ensures Grows(o, o') && AllTaken(w, c, o') && ListedFor(o', acquired, c.location(p), p, current)
  {
    hide Taken, SiteTaken, AllTaken, Says, BetweenPaths, Listed, Grows, ChangeAt, ChangeOf, IsChange, GatesAmong;
    var change := LockStateChangeFor(p, w.effects);
    var gates := GatesAmong(current, c);
    o' := o;
    GrowsFrom(o);
    var remaining := current;
    while remaining != {}
      invariant remaining <= current && Indexed(o') && Grows(o, o') && AllTaken(w, c, o')
      invariant ListedFor(o', acquired, c.location(p), p, current - remaining)
    {
      var held :| held in remaining;
      var order := Order(held, acquired, c.location(p), gates, c.liveEntries(p), c.startedEntries(p),
                         acquired in change.recursivelyAcquirable);
      OrderIsTaken(w, c, p, current, order);
      ghost var before := o';
      o' := RecordOrder(o', order, p);
      RecordedIsTaken(w, c, before, o', order, p);
      GrowsOn(o, before, o');
      GrowsIndexed(before, o');
      GrowingLists(before, o', acquired, c.location(p), p, current - remaining);
      remaining := remaining - {held};
    }
    assert current - {} == current;
  }

  lemma GrowsFrom(o: Orders)
    requires Indexed(o)
    ensures Grows(o, o)
  {
  }

  lemma GrowsIndexed(o: Orders, o': Orders)
    requires Grows(o, o')
    ensures Indexed(o) && Indexed(o')
  {
  }

  // ----- one block -------------------------------------------------------------------------------------

  /** Every lock held at an acquisition of `p` that waits, the block being entered with `locks`, has its order. */
  ghost predicate PointListed(w: Flow, c: Context, o: Orders, p: Point, locks: LockSet) {
    Indexed(o) && forall acquired | acquired in ChangeAt(w.effects, p).orderedAcquired ::
                    ListedFor(o, acquired, c.location(p), p, HeldWaiting(w, p, locks))
  }

  ghost predicate BlockListed(w: Flow, c: Context, o: Orders, block: nat, n: nat, locks: LockSet) {
    forall i: nat | i < n :: PointListed(w, c, o, Point(block, i), locks)
  }

  lemma PointStaysListed(w: Flow, c: Context, o: Orders, o': Orders, p: Point, locks: LockSet)
    requires Grows(o, o') && PointListed(w, c, o, p, locks)
    ensures PointListed(w, c, o', p, locks)
  {
    hide ListedFor, Grows, HeldWaiting, ChangeAt;
    GrowsIndexed(o, o');
    forall acquired | acquired in ChangeAt(w.effects, p).orderedAcquired
      ensures ListedFor(o', acquired, c.location(p), p, HeldWaiting(w, p, locks))
    {
      GrowingLists(o, o', acquired, c.location(p), p, HeldWaiting(w, p, locks));
    }
  }

  lemma BlockStaysListed(w: Flow, c: Context, o: Orders, o': Orders, block: nat, n: nat, locks: LockSet)
    requires Grows(o, o') && BlockListed(w, c, o, block, n, locks)
    ensures BlockListed(w, c, o', block, n, locks)
  {
    hide PointListed, Grows;
    forall i: nat | i < n
      ensures PointListed(w, c, o', Point(block, i), locks)
    {
      PointStaysListed(w, c, o, o', Point(block, i), locks);
    }
  }

  lemma WitnessedHeldTogetherAt(w: Flow, p: Point, locks: LockSet)
    requires Witnessed(w, p.block, locks)
    ensures HeldTogetherAt(w, p, HeldWaiting(w, p, locks))
  {
    hide WaitsHolding, HeldAlong, ChangeAt;
    var path :| PathTo(w.f, path, p.block) && locks <= HeldAlong(w, path);
    HeldAtMonotone(w, p.block, p.index, locks, HeldAlong(w, path));
    assert HeldWaiting(w, p, locks) <= HeldWaiting(w, p, HeldAlong(w, path));
    hide HeldWaiting;
    forall lock | lock in HeldWaiting(w, p, locks)
      ensures WaitsHolding(w, path, p, lock)
    {
      WaitingMeans(w, path, p, lock);
    }
  }

  lemma WitnessedIsBetween(w: Flow, p: Point, locks: LockSet)
    requires Witnessed(w, p.block, locks)
    ensures BetweenPaths(w, p, HeldWaiting(w, p, locks))
  {
    WitnessedHeldTogetherAt(w, p, locks);
    hide HeldTogetherAt, Witnessed, HeldOnEveryPath, CertainlyHeld, DropsLock, HeldAt, ChangeAt;
    forall lock | CertainlyWaits(w, p, lock)
      ensures lock in HeldWaiting(w, p, locks)
    {
      EffectsMean(w, p, lock);
      CertainlyHeldMeans(w, p, lock);
      if lock !in HeldAt(w, p.block, p.index, locks) {
        LackAt(w, p, locks, lock);
      }
    }
  }

  /** Records the orders each acquisition of `p` that waits takes. */
  method RecordAt(w: Flow, c: Context, p: Point, locks: LockSet, ordered: seq<string>, current: LockSet, o: Orders)
    returns (o': Orders)
    requires Indexed(o) && AllTaken(w, c, o) && w.f.Contains(p) && Witnessed(w, p.block, locks)
    requires ordered == ChangeAt(w.effects, p).orderedAcquired && current == HeldWaiting(w, p, locks)
    ensures Grows(o, o') && AllTaken(w, c, o') && PointListed(w, c, o', p, locks)
  {
    hide AllTaken, BetweenPaths, ListedFor, Grows, ChangeAt, HeldWaiting, Witnessed;
    WitnessedIsBetween(w, p, locks);
    o' := o;
    GrowsFrom(o);
    for k := 0 to |ordered|
      invariant Indexed(o') && Grows(o, o') && AllTaken(w, c, o')
      invariant forall j | 0 <= j < k :: ListedFor(o', ordered[j], c.location(p), p, current)
    {
      ghost var before := o';
      o' := RecordFrom(w, c, p, current, ordered[k], o');
      GrowsOn(o, before, o');
      GrowsIndexed(before, o');
      forall j | 0 <= j < k
        ensures ListedFor(o', ordered[j], c.location(p), p, current)
      {
        GrowingLists(before, o', ordered[j], c.location(p), p, current);
      }
    }
  }

  /** Runs the instructions of a block entered with `locks`, recording the orders it takes. */
  method WalkOrders(w: Flow, c: Context, block: nat, locks: LockSet, o: Orders)
    returns (current: LockSet, o': Orders)
    requires block < |w.f.blocks| && Witnessed(w, block, locks) && Indexed(o) && AllTaken(w, c, o)
    ensures current == HeldPast(w, block, locks)
    ensures Grows(o, o') && AllTaken(w, c, o') && BlockListed(w, c, o', block, w.f.blocks[block].size, locks)
  {
    hide Witnessed, AllTaken, PointListed, Grows, ChangeAt, ChangeOf;
    current, o' := locks, o;
    GrowsFrom(o);
    for i := 0 to w.f.blocks[block].size
      invariant current == HeldAt(w, block, i, locks)
      invariant Indexed(o') && Grows(o, o') && AllTaken(w, c, o') && BlockListed(w, c, o', block, i, locks)
    {
      var p := Point(block, i);
      var change := LockStateChangeFor(p, w.effects);
      current := current - set lock | lock in change.released;
      ghost var before := o';
      o' := RecordAt(w, c, p, locks, change.orderedAcquired, current, o');
      GrowsOn(o, before, o');
      GrowsIndexed(before, o');
      BlockStaysListed(w, c, before, o', block, i, locks);
      current := current + set lock | lock in change.acquired;
    }
  }

  // ----- the iteration ---------------------------------------------------------------------------------

  ghost predicate Settled(w: Flow, c: Context, block: nat, ins: States, outs: States, o: Orders) {
    && |ins| == |outs| && block < |w.f.blocks| && Stable(w, ins, outs, block)
    && (ins[block].Some? ==> BlockListed(w, c, o, block, w.f.blocks[block].size, ins[block].value))
  }

  method VisitForOrders(w: Flow, c: Context, reachable: seq<nat>, block: nat, ins: States, outs: States, o: Orders)
    returns (ins': States, outs': States, o': Orders, changed: bool)
    requires Inv(w, ins, outs) && ReachableBlocks(w.f, reachable) && block in reachable
    requires Indexed(o) && AllTaken(w, c, o)
    ensures Inv(w, ins', outs') && Grows(o, o') && AllTaken(w, c, o')
    ensures if changed then Falls(ins, outs, ins', outs') else ins' == ins && outs' == outs
    ensures !changed ==> Settled(w, c, block, ins, outs, o')
  {
    hide Inv, IsEntryState, Reachable, Falls, BlockListed, AllTaken, Grows, HeldPast, Witnessed;
    assert block < |w.f.blocks|;
    InvValid(w, ins, outs);
    ins', outs', o', changed := ins, outs, o, false;
    GrowsFrom(o);
    var newInState := EntryState(w, reachable, block, ins, outs);
    if newInState.None? {
      NoStateIsStable(w, ins, outs, block);
      return;
    }
    StepKeeps(w, ins, outs, block, newInState.value);
    StepFalls(w, ins, outs, block, newInState.value);
    EntryStateWitnessed(w, ins, outs, block, newInState.value);
    var currentLocks;
    currentLocks, o' := WalkOrders(w, c, block, newInState.value, o);
    if ins[block] != newInState {
      ins' := ins[block := newInState];
      changed := true;
    }
    if outs[block] != Some(currentLocks) {
      outs' := outs[block := Some(currentLocks)];
      changed := true;
    }
    assert ins' == ins[block := newInState] && outs' == outs[block := Some(currentLocks)];
  }

  lemma StaysSettled(w: Flow, c: Context, block: nat, ins: States, outs: States, o: Orders, o': Orders)
    requires Settled(w, c, block, ins, outs, o) && Grows(o, o')
    ensures Settled(w, c, block, ins, outs, o')
  {
    hide IsEntryState, BlockListed, Grows;
    if ins[block].Some? {
      BlockStaysListed(w, c, o, o', block, w.f.blocks[block].size, ins[block].value);
    }
  }

  method PassForOrders(w: Flow, c: Context, reachable: seq<nat>, ins: States, outs: States, o: Orders)
    returns (ins': States, outs': States, o': Orders, changed: bool)
    requires Inv(w, ins, outs) && ReachableBlocks(w.f, reachable) && Indexed(o) && AllTaken(w, c, o)
    ensures Inv(w, ins', outs') && Indexed(o') && AllTaken(w, c, o')
    ensures if changed then Falls(ins, outs, ins', outs') else ins' == ins && outs' == outs
    ensures !changed ==> forall k | 0 <= k < |reachable| :: Settled(w, c, reachable[k], ins', outs', o')
  {
    hide Inv, ReachableBlocks, AllTaken, Settled, Grows, Indexed, Unknowns, Total;
    ins', outs', o', changed := ins, outs, o, false;
    for r := 0 to |reachable|
      invariant Inv(w, ins', outs') && Indexed(o') && AllTaken(w, c, o')
      invariant if changed then Falls(ins, outs, ins', outs') else ins' == ins && outs' == outs
      invariant !changed ==> forall k | 0 <= k < r :: Settled(w, c, reachable[k], ins', outs', o')
    {
      ghost var before := o';
      var moved;
      ins', outs', o', moved := VisitForOrders(w, c, reachable, reachable[r], ins', outs', o');
      GrowsIndexed(before, o');
      changed := changed || moved;
      if !changed {
        forall k | 0 <= k < r
          ensures Settled(w, c, reachable[k], ins', outs', o')
        {
          StaysSettled(w, c, reachable[k], ins', outs', before, o');
        }
      }
    }
  }

  /** What the collector answers, between two bounds: an order for every lock certainly held at a waiting
      acquisition, and no order that some path to an acquisition at its location does not take; one for each two locks
      and place, with the acquisitions it stands for. */
  ghost predicate IsCollected(w: Flow, c: Context, o: Orders) {
    && OnePerPlace(o) && AllTaken(w, c, o)
    && forall p, first, second | w.f.Contains(p) && Reachable(w.f, p.block)
         && Awaited(EffectsAt(w.effects, p), second) && CertainlyWaits(w, p, first) ::
           SaidAt(o, first, second, c.location(p), p)
  }

  lemma SettledListsHeld(w: Flow, c: Context, ins: States, outs: States, o: Orders, p: Point, first: string,
                         second: string)
    requires Inv(w, ins, outs) && AllStable(w, ins, outs) && w.f.Contains(p) && Reachable(w.f, p.block)
    requires Settled(w, c, p.block, ins, outs, o) && Awaited(EffectsAt(w.effects, p), second)
    requires Indexed(o) && CertainlyWaits(w, p, first)
    ensures Listed(o, first, second, c.location(p), p)
  {
    hide Inv, AllStable, Reachable, Stable, HeldOnEveryPath, CertainlyHeld, Listed, Indexed, ChangeAt, DropsLock, Awaited,
         EffectsAt;
    EffectsMean(w, p, second);
    EffectsMean(w, p, first);
    CertainlyHeldMeans(w, p, first);
    StableIsExact(w, ins, outs, p, first);
    var locks := ins[p.block].value;
    assert PointListed(w, c, o, Point(p.block, p.index), locks);
    assert ListedFor(o, second, c.location(p), p, HeldWaiting(w, p, locks));
    assert first in HeldWaiting(w, p, locks);
  }

  lemma EndIsCollected(w: Flow, c: Context, reachable: seq<nat>, ins: States, outs: States, o: Orders)
    requires Inv(w, ins, outs) && ReachableBlocks(w.f, reachable) && Indexed(o) && AllTaken(w, c, o)
    requires forall k | 0 <= k < |reachable| :: Settled(w, c, reachable[k], ins, outs, o)
    ensures IsCollected(w, c, o)
  {
    hide Inv, Reachable, Stable, BlockListed, Listed, Indexed, AllTaken, CertainlyWaits, Awaited, EffectsAt, OnePerPlace,
         SaidAt;
    InvValid(w, ins, outs);
    IndexedIsOnePerPlace(o);
    forall b: nat | b < |w.f.blocks| && Reachable(w.f, b)
      ensures Settled(w, c, b, ins, outs, o)
    {
      var k :| 0 <= k < |reachable| && reachable[k] == b;
    }
    forall p, first, second | w.f.Contains(p) && Reachable(w.f, p.block)
         && Awaited(EffectsAt(w.effects, p), second) && CertainlyWaits(w, p, first)
      ensures SaidAt(o, first, second, c.location(p), p)
    {
      SettledListsHeld(w, c, ins, outs, o, p, first, second);
      ListedIsSaid(o, first, second, c.location(p), p);
    }
  }

  /** The orders the function takes, entered with `initialHeldLocks` and whatever its caller holds. */
  method Collect(f: Function, effects: FunctionLockEffects, reachable: seq<nat>, initialHeldLocks: LockSet, c: Context)
    returns (o: Orders)
    requires f.Valid() && ReachableBlocks(f, reachable)
    ensures IsCollected(Flow(f, effects, initialHeldLocks + {LOCKS_HELD_BY_CALLER}), c, o)
  {
    hide Inv, ReachableBlocks, Settled, IsCollected, Unknowns, Total, Taken, SiteTaken;
    var w := Flow(f, effects, initialHeldLocks + {LOCKS_HELD_BY_CALLER});
    o := Orders([], [], map[]);
    var outs: States := seq(|f.blocks|, _ => None);
    StartKeeps(w);
    var ins := outs[0 := Some(w.initial)];
    var changed := true;
    while changed
      invariant Inv(w, ins, outs) && Indexed(o) && AllTaken(w, c, o)
      invariant !changed ==> forall k | 0 <= k < |reachable| :: Settled(w, c, reachable[k], ins, outs, o)
      decreases Unknowns(ins) + Unknowns(outs), Total(ins) + Total(outs), changed
    {
      ins, outs, o, changed := PassForOrders(w, c, reachable, ins, outs, o);
    }
    EndIsCollected(w, c, reachable, ins, outs, o);
  }
}
