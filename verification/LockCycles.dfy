/** Cycles of lock orders: what the deadlock search looks for, stated without the search. */
module LockCycles {
  import opened Facts

  type Cycle = seq<LockOrderFact>
  type CycleKey = set<(string, string)>

  /** The lock edges of a choice of orders, whatever order they are listed in. */
  function Key(cycle: Cycle): CycleKey {
    if cycle == [] then {}
    else Key(cycle[1..]) + {(cycle[0].firstLockId, cycle[0].secondLockId)}
  }

  ghost predicate HasEdge(c: Cycle, edge: (string, string)) {
    exists i | 0 <= i < |c| :: edge == (c[i].firstLockId, c[i].secondLockId)
  }

  lemma {:induction false} InKey(c: Cycle, edge: (string, string))
    ensures edge in Key(c) <==> HasEdge(c, edge)
  {
    if c != [] {
      InKey(c[1..], edge);
      if HasEdge(c[1..], edge) {
        var i :| 0 <= i < |c[1..]| && edge == (c[1..][i].firstLockId, c[1..][i].secondLockId);
        assert c[i + 1] == c[1..][i];
      }
      if HasEdge(c, edge) && edge != (c[0].firstLockId, c[0].secondLockId) {
        var i :| 0 <= i < |c| && edge == (c[i].firstLockId, c[i].secondLockId);
        assert c[i] == c[1..][i - 1];
      }
    }
  }

  lemma SameEdgesSameKey(a: Cycle, b: Cycle)
    requires forall order :: order in a <==> order in b
    ensures Key(a) == Key(b)
  {
    forall edge
      ensures edge in Key(a) <==> edge in Key(b)
    {
      InKey(a, edge);
      InKey(b, edge);
      assert forall i | 0 <= i < |a| :: a[i] in b;
      assert forall i | 0 <= i < |b| :: b[i] in a;
    }
  }

  ghost predicate DistinctFirsts(c: Cycle) {
    forall i, j | 0 <= i < j < |c| :: c[i].firstLockId != c[j].firstLockId
  }

  function Next(c: Cycle, i: nat): nat
    requires i < |c|
  {
    if i + 1 == |c| then 0 else i + 1
  }

  /** One order between each two successive locks, closing on the first, no lock twice. */
  ghost predicate IsCycle(c: Cycle) {
    && |c| >= 2
    && DistinctFirsts(c)
    && forall i | 0 <= i < |c| :: c[i].secondLockId == c[Next(c, i)].firstLockId
  }

  predicate InParallel(a: LockOrderFact, b: LockOrderFact, facts: EntryFacts) {
    MayHappenInParallel(RootSide(a.inRootTask, a.liveEntries), facts.EntriesOf(a.functionId),
                        RootSide(b.inRootTask, b.liveEntries), facts.EntriesOf(b.functionId), facts)
  }

  ghost function EntriesReaching(order: LockOrderFact, facts: EntryFacts): set<string> {
    if order.functionId in facts.reachableThreadEntriesByFunction
    then facts.reachableThreadEntriesByFunction[order.functionId] else {}
  }

  /** Two acquisitions the initial thread or entries may make at once. */
  ghost predicate OrdersMeet(a: LockOrderFact, b: LockOrderFact, facts: EntryFacts) {
    || (a.inRootTask && exists entry :: entry in EntriesReaching(b, facts) && entry in a.liveEntries)
    || (b.inRootTask && exists entry :: entry in EntriesReaching(a, facts) && entry in b.liveEntries)
    || (exists x, y :: x in EntriesReaching(a, facts) && y in EntriesReaching(b, facts) && InstancesMeet(x, y, facts))
  }

  lemma InParallelIff(a: LockOrderFact, b: LockOrderFact, facts: EntryFacts)
    ensures InParallel(a, b, facts) <==> OrdersMeet(a, b, facts)
  {
    ParallelIff(RootSide(a.inRootTask, a.liveEntries), facts.EntriesOf(a.functionId),
                RootSide(b.inRootTask, b.liveEntries), facts.EntriesOf(b.functionId), facts);
  }

  ghost predicate PairwiseParallel(c: Cycle, facts: EntryFacts) {
    forall i, j {:trigger InParallel(c[i], c[j], facts)} | 0 <= i < j < |c| :: InParallel(c[i], c[j], facts)
  }

  function CycleLocks(c: Cycle): set<string> {
    (set order | order in c :: order.firstLockId) + (set order | order in c :: order.secondLockId)
  }

  /** A lock outside the cycle held at every acquisition of the choice serializes the cycle. */
  ghost predicate IsGate(c: Cycle, gate: string) {
    gate !in CycleLocks(c) && forall order | order in c :: gate in order.heldLocks
  }

  ghost predicate HasGate(c: Cycle) {
    exists gate :: IsGate(c, gate)
  }

  ghost predicate AddressOrdered(c: Cycle) {
    forall order | order in c :: order.lowerAddressFirst
  }

  /** Only an acquisition some task can execute may take part in a deadlock. */
  predicate Participates(order: LockOrderFact, facts: EntryFacts) {
    order.functionId in facts.reachableThreadEntriesByFunction || order.inRootTask
  }

  /** The orders the search runs on. */
  predicate IsEdge(order: LockOrderFact, orders: seq<LockOrderFact>, facts: EntryFacts) {
    order in orders && order.firstLockId != order.secondLockId && Participates(order, facts)
  }

  /** A choice of orders around an elementary cycle that no gate and no missing parallelism rules out. */
  ghost predicate Ungated(c: Cycle, orders: seq<LockOrderFact>, facts: EntryFacts) {
    && IsCycle(c)
    && (forall order | order in c :: IsEdge(order, orders, facts))
    && PairwiseParallel(c, facts)
    && !HasGate(c)
  }

  /** A choice of orders that may deadlock. */
  ghost predicate MayDeadlock(c: Cycle, orders: seq<LockOrderFact>, facts: EntryFacts) {
    Ungated(c, orders, facts) && !AddressOrdered(c)
  }

  // ----- rotations ------------------------------------------------------------------------

  function Rotated(c: Cycle, k: nat): Cycle
    requires k < |c|
  {
    c[k..] + c[..k]
  }

  lemma RotatedMembers(c: Cycle, k: nat)
    requires k < |c|
    ensures forall order :: order in Rotated(c, k) <==> order in c
  {
    assert c == c[..k] + c[k..];
  }

  lemma InParallelSymmetric(a: LockOrderFact, b: LockOrderFact, facts: EntryFacts)
    ensures InParallel(a, b, facts) <==> InParallel(b, a, facts)
  {
    MayHappenInParallelSymmetric(RootSide(a.inRootTask, a.liveEntries), facts.EntriesOf(a.functionId),
                                 RootSide(b.inRootTask, b.liveEntries), facts.EntriesOf(b.functionId), facts);
  }

  lemma RotatedParallel(c: Cycle, k: nat, facts: EntryFacts)
    requires k < |c| && PairwiseParallel(c, facts)
    ensures PairwiseParallel(Rotated(c, k), facts)
  {
    var r := Rotated(c, k);
    forall i, j | 0 <= i < j < |r|
      ensures InParallel(r[i], r[j], facts)
    {
      var i' := if i + k < |c| then i + k else i + k - |c|;
      var j' := if j + k < |c| then j + k else j + k - |c|;
      assert r[i] == c[i'] && r[j] == c[j'];
      assert if i' < j' then InParallel(c[i'], c[j'], facts) else InParallel(c[j'], c[i'], facts);
      InParallelSymmetric(c[i'], c[j'], facts);
    }
  }

  ghost predicate Follows(c: Cycle, i: nat) {
    i < |c| && c[i].secondLockId == c[Next(c, i)].firstLockId
  }

  lemma CycleFollows(c: Cycle, i: nat)
    requires IsCycle(c) && i < |c|
    ensures Follows(c, i)
  {
  }

  lemma FollowingIsCycle(c: Cycle)
    requires |c| >= 2 && DistinctFirsts(c) && forall i: nat | i < |c| :: Follows(c, i)
    ensures IsCycle(c)
  {
    assert forall i: nat | i < |c| :: Follows(c, i);
    forall i | 0 <= i < |c|
      ensures c[i].secondLockId == c[Next(c, i)].firstLockId
    {
      assert Follows(c, i);
    }
  }

  lemma CycleShape(c: Cycle)
    requires IsCycle(c)
    ensures |c| >= 2 && DistinctFirsts(c)
  {
  }

  function Source(c: Cycle, k: nat, i: nat): nat
    requires k < |c| && i < |c|
  {
    if i + k < |c| then i + k else i + k - |c|
  }

  lemma RotatedAt(c: Cycle, k: nat, i: nat)
    requires k < |c| && i < |c|
    ensures |Rotated(c, k)| == |c| && Source(c, k, i) < |c| && Rotated(c, k)[i] == c[Source(c, k, i)]
  {
  }

  lemma RotatedIsCycle(c: Cycle, k: nat)
    requires k < |c| && IsCycle(c)
    ensures IsCycle(Rotated(c, k))
  {
    hide IsCycle, Rotated;
    CycleShape(c);
    var r := Rotated(c, k);
    RotatedAt(c, k, 0);
    forall i: nat | i < |r|
      ensures Follows(r, i)
    {
      CycleFollows(c, Source(c, k, i));
      RotatedAt(c, k, i);
      RotatedAt(c, k, Next(r, i));
    }
    forall i, j | 0 <= i < j < |r|
      ensures r[i].firstLockId != r[j].firstLockId
    {
      RotatedAt(c, k, i);
      RotatedAt(c, k, j);
    }
    FollowingIsCycle(r);
  }

  lemma RotatedBack(c: Cycle, k: nat)
    requires 0 < k < |c|
    ensures |Rotated(c, k)| == |c| && Rotated(Rotated(c, k), |c| - k) == c
  {
    var r := Rotated(c, k);
    assert r[|c| - k..] == c[..k] && r[..|c| - k] == c[k..];
  }

  lemma RotatedUngated(c: Cycle, k: nat, orders: seq<LockOrderFact>, facts: EntryFacts)
    requires k < |c| && Ungated(c, orders, facts)
    ensures Ungated(Rotated(c, k), orders, facts)
  {
    hide IsCycle, PairwiseParallel, Rotated, Key, IsEdge;
    var r := Rotated(c, k);
    RotatedMembers(c, k);
    RotatedIsCycle(c, k);
    RotatedParallel(c, k, facts);
    assert CycleLocks(r) == CycleLocks(c);
    forall gate
      ensures IsGate(r, gate) <==> IsGate(c, gate)
    {
    }
  }

  /** Where a cycle is listed from decides nothing: its edges and every reason to rule it out stay. */
  lemma RotationInvariant(c: Cycle, k: nat, orders: seq<LockOrderFact>, facts: EntryFacts)
    requires k < |c|
    ensures Ungated(Rotated(c, k), orders, facts) <==> Ungated(c, orders, facts)
    ensures Key(Rotated(c, k)) == Key(c)
    ensures AddressOrdered(Rotated(c, k)) <==> AddressOrdered(c)
  {
    RotatedMembers(c, k);
    hide Ungated, Key;
    SameEdgesSameKey(c, Rotated(c, k));
    if k == 0 {
      assert Rotated(c, k) == c;
    } else {
      RotatedBack(c, k);
      if Ungated(c, orders, facts) {
        RotatedUngated(c, k, orders, facts);
      }
      if Ungated(Rotated(c, k), orders, facts) {
        RotatedUngated(Rotated(c, k), |c| - k, orders, facts);
      }
    }
  }

  // ----- the edges tell the cycle ----------------------------------------------------------

  /** Two elementary cycles on the same edges, listed from the same lock, run through the same locks. */
  lemma {:induction false} SameKeySameLocks(a: Cycle, b: Cycle, i: nat)
    requires IsCycle(a) && IsCycle(b) && Key(a) == Key(b)
    requires a[0].firstLockId == b[0].firstLockId
    requires i < |a| && i < |b|
    ensures a[i].firstLockId == b[i].firstLockId && a[i].secondLockId == b[i].secondLockId
  {
    if i > 0 {
      SameKeySameLocks(a, b, i - 1);
      assert a[i - 1].secondLockId == a[i].firstLockId && b[i - 1].secondLockId == b[i].firstLockId;
    }
    InKey(a, (a[i].firstLockId, a[i].secondLockId));
    InKey(b, (a[i].firstLockId, a[i].secondLockId));
    var j :| 0 <= j < |b| && b[j].firstLockId == a[i].firstLockId && b[j].secondLockId == a[i].secondLockId;
    assert j == i;
  }

  /** A cycle cannot close before another one on the same edges does. */
  lemma SameKeyNoLonger(a: Cycle, b: Cycle)
    requires IsCycle(a) && IsCycle(b) && Key(a) == Key(b)
    requires a[0].firstLockId == b[0].firstLockId
    ensures |a| <= |b|
  {
    if |b| < |a| {
      SameKeySameLocks(a, b, |b| - 1);
      assert false;
    }
  }

  lemma KeyDeterminesLocks(a: Cycle, b: Cycle)
    requires IsCycle(a) && IsCycle(b) && Key(a) == Key(b)
    requires a[0].firstLockId == b[0].firstLockId
    ensures |a| == |b|
    ensures forall i | 0 <= i < |a| ::
              a[i].firstLockId == b[i].firstLockId && a[i].secondLockId == b[i].secondLockId
  {
    SameKeyNoLonger(a, b);
    SameKeyNoLonger(b, a);
    forall i | 0 <= i < |a|
      ensures a[i].firstLockId == b[i].firstLockId && a[i].secondLockId == b[i].secondLockId
    {
      SameKeySameLocks(a, b, i);
    }
  }
}
