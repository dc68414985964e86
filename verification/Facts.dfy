/** The facts the checkers read, and the may-happen-in-parallel relation they share. */
module Facts {
  import opened Strings

  datatype SourceLocation = SourceLocation(file: string, line: nat, column: nat, functionName: string)

  datatype EntryConcurrencyInfo = EntryConcurrencyInfo(staticSpawnCount: nat, hasSpawnInLoop: bool) {
    predicate IsSelfConcurrent() {
      staticSpawnCount >= 2 || hasSpawnInLoop
    }
  }

  /** One blocking acquisition of `secondLockId` made while `firstLockId` is held. */
  datatype LockOrderFact = LockOrderFact(
    functionId: string,
    firstLockId: string,
    secondLockId: string,
    location: SourceLocation,
    heldLocks: set<string>,
    inRootTask: bool,
    liveEntries: set<string>,
    lowerAddressFirst: bool)

  /** What the whole unit records about its thread entries. */
  datatype EntryFacts = EntryFacts(
    entryConcurrency: map<string, EntryConcurrencyInfo>,
    reachableThreadEntriesByFunction: map<string, set<string>>,
    sequencedEntryPairs: set<(string, string)>)
  {
    function EntriesOf(functionId: string): set<string> {
      if functionId in reachableThreadEntriesByFunction
      then reachableThreadEntriesByFunction[functionId] else {}
    }

    predicate IsSelfConcurrentEntry(entry: string) {
      entry in entryConcurrency && entryConcurrency[entry].IsSelfConcurrent()
    }
  }

  function MakeEntryPair(lhs: string, rhs: string): (string, string) {
    if Less(rhs, lhs) then (rhs, lhs) else (lhs, rhs)
  }

  /** Two runs of these entries are neither sequenced by a join nor the same lone instance. */
  predicate EntriesOverlap(lhs: string, rhs: string, facts: EntryFacts) {
    if lhs != rhs then MakeEntryPair(lhs, rhs) !in facts.sequencedEntryPairs
    else facts.IsSelfConcurrentEntry(lhs)
  }

  predicate MayRunConcurrently(lhsEntries: set<string>, rhsEntries: set<string>, facts: EntryFacts) {
    exists lhs, rhs | lhs in lhsEntries && rhs in rhsEntries :: EntriesOverlap(lhs, rhs, facts)
  }

  /** Where the initial thread stands with respect to a program point. */
  datatype RootSide = RootSide(inRootTask: bool, liveEntries: set<string>)

  predicate RacesWithRootTask(point: RootSide, otherEntries: set<string>) {
    point.inRootTask && exists entry | entry in otherEntries :: entry in point.liveEntries
  }

  predicate MayHappenInParallel(lhs: RootSide, lhsEntries: set<string>, rhs: RootSide, rhsEntries: set<string>,
                                facts: EntryFacts)
  {
    if RacesWithRootTask(lhs, rhsEntries) || RacesWithRootTask(rhs, lhsEntries) then true
    else if lhsEntries == {} || rhsEntries == {} then false
    else MayRunConcurrently(lhsEntries, rhsEntries, facts)
  }

  lemma EntriesOverlapSymmetric(a: string, b: string, facts: EntryFacts)
    ensures EntriesOverlap(a, b, facts) <==> EntriesOverlap(b, a, facts)
  {
    LessTrichotomy(a, b);
  }

  /** The relation does not depend on which point is named first. */
  lemma MayHappenInParallelSymmetric(lhs: RootSide, lhsEntries: set<string>,
                                     rhs: RootSide, rhsEntries: set<string>, facts: EntryFacts)
    ensures MayHappenInParallel(lhs, lhsEntries, rhs, rhsEntries, facts)
       <==> MayHappenInParallel(rhs, rhsEntries, lhs, lhsEntries, facts)
  {
    forall a, b
      ensures EntriesOverlap(a, b, facts) <==> EntriesOverlap(b, a, facts)
    {
      EntriesOverlapSymmetric(a, b, facts);
    }
  }

  // ----- what the relation comes to ----------------------------------------------------------------

  /** A join orders the two entries, whichever of the pair comes first. */
  ghost predicate AreSequenced(x: string, y: string, facts: EntryFacts) {
    if Less(y, x) then (y, x) in facts.sequencedEntryPairs else (x, y) in facts.sequencedEntryPairs
  }

  /** Instances of the two entries may run at once: of two that no join orders, or of one started more than once. */
  ghost predicate InstancesMeet(x: string, y: string, facts: EntryFacts) {
    || (x != y && !AreSequenced(x, y, facts))
    || (x == y && x in facts.entryConcurrency
        && (facts.entryConcurrency[x].staticSpawnCount >= 2 || facts.entryConcurrency[x].hasSpawnInLoop))
  }

  /** Two points may run at once exactly when the initial thread is at one while an entry that reaches the other is
      alive, or instances of two entries that reach them may. */
  lemma ParallelIff(lhs: RootSide, lhsEntries: set<string>, rhs: RootSide, rhsEntries: set<string>, facts: EntryFacts)
    ensures MayHappenInParallel(lhs, lhsEntries, rhs, rhsEntries, facts)
       <==> || (lhs.inRootTask && exists entry :: entry in rhsEntries && entry in lhs.liveEntries)
            || (rhs.inRootTask && exists entry :: entry in lhsEntries && entry in rhs.liveEntries)
            || (exists x, y :: x in lhsEntries && y in rhsEntries && InstancesMeet(x, y, facts))
  {
    assert forall x, y :: EntriesOverlap(x, y, facts) <==> InstancesMeet(x, y, facts);
  }

  /** Points one entry each reaches, off the initial thread, never run at once when a join orders the entries, or when
      they are one entry started once. */
  lemma NeverInParallel(x: string, y: string, lhs: RootSide, rhs: RootSide, facts: EntryFacts)
    requires !lhs.inRootTask && !rhs.inRootTask
    requires if x != y then AreSequenced(x, y, facts)
             else x in facts.entryConcurrency ==> facts.entryConcurrency[x] == EntryConcurrencyInfo(1, false)
    ensures !MayHappenInParallel(lhs, {x}, rhs, {y}, facts)
  {
    ParallelIff(lhs, {x}, rhs, {y}, facts);
  }
}
