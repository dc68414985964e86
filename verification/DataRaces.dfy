/** Which pairs of accesses race, and how the racing pairs of one symbol are grouped into diagnostics. */
module DataRaces {
  import opened Facts
  import opened MemoryRegions
  import opened Strings
  import ControlFlow

  datatype AccessKind = Read | Write

  datatype AliasProvenance = Direct | MustAlias | MayAlias

  datatype AccessFact = AccessFact(
    symbol: string,
    region: MemoryRegion,
    functionId: string,
    kind: AccessKind,
    aliasProvenance: AliasProvenance,
    loweredLocation: SourceLocation,
    userLocation: SourceLocation,
    isAtomic: bool,
    coarseCallEffect: bool,
    guessedIdentity: bool,
    inRootTask: bool,
    liveEntries: set<string>,
    boundBySpawn: bool,
    instanceOwner: string,
    heldLocks: set<string>,
    beforeRelease: set<string>,
    afterAcquire: set<string>)
  {
    function Root(): RootSide {
      RootSide(inRootTask, liveEntries)
    }

    predicate IsPlainWrite() {
      kind.Write? && !isAtomic
    }

    /** The access was observed on an instruction, of a symbol that was resolved. */
    predicate IsPrecise() {
      !coarseCallEffect && !guessedIdentity
    }
  }

  // ----- the filters -------------------------------------------------------------------------------

  predicate ShareRecognizedLock(lhs: AccessFact, rhs: AccessFact) {
    lhs.heldLocks * rhs.heldLocks != {}
  }

  predicate OrderedByPublication(lhs: AccessFact, rhs: AccessFact) {
    lhs.beforeRelease * rhs.afterAcquire != {} || rhs.beforeRelease * lhs.afterAcquire != {}
  }

  predicate HasPreciseRegions(lhs: AccessFact, rhs: AccessFact) {
    && !lhs.coarseCallEffect && !rhs.coarseCallEffect
    && lhs.region.hasKnownOffset && rhs.region.hasKnownOffset
    && lhs.region.byteSize != 0 && rhs.region.byteSize != 0
  }

  predicate InOwnObjectsOfInstances(lhs: AccessFact, rhs: AccessFact) {
    lhs.instanceOwner != "" && lhs.instanceOwner == rhs.instanceOwner
  }

  predicate Parallel(lhs: AccessFact, rhs: AccessFact, facts: EntryFacts) {
    MayHappenInParallel(lhs.Root(), facts.EntriesOf(lhs.functionId), rhs.Root(), facts.EntriesOf(rhs.functionId), facts)
  }

  /** The pair passes every filter. */
  predicate Races(lhs: AccessFact, rhs: AccessFact, facts: EntryFacts) {
    && (lhs.kind.Write? || rhs.kind.Write?)
    && lhs.region.MayOverlap(rhs.region)
    && !lhs.region.OrderedWithElementOwner(rhs.region)
    && !(lhs.isAtomic && rhs.isAtomic)
    && (lhs.isAtomic != rhs.isAtomic ==> HasPreciseRegions(lhs, rhs))
    && Parallel(lhs, rhs, facts)
    && !InOwnObjectsOfInstances(lhs, rhs)
    && !ShareRecognizedLock(lhs, rhs)
    && !OrderedByPublication(lhs, rhs)
  }

  /** Whether two accesses race does not depend on which comes first. */
  lemma RacesSymmetric(a: AccessFact, b: AccessFact, facts: EntryFacts)
    ensures Races(a, b, facts) <==> Races(b, a, facts)
  {
    MayHappenInParallelSymmetric(a.Root(), facts.EntriesOf(a.functionId), b.Root(), facts.EntriesOf(b.functionId), facts);
    MayOverlapSymmetric(a.region, b.region);
    assert a.heldLocks * b.heldLocks == b.heldLocks * a.heldLocks;
    hide MayHappenInParallel, MemoryRegion.MayOverlap, MemoryRegion.OrderedWithElementOwner;
  }

  ghost function ReachedBy(access: AccessFact, facts: EntryFacts): set<string> {
    if access.functionId in facts.reachableThreadEntriesByFunction
    then facts.reachableThreadEntriesByFunction[access.functionId] else {}
  }

  /** Two accesses the initial thread or entries may make at once. */
  ghost predicate MayMeet(a: AccessFact, b: AccessFact, facts: EntryFacts) {
    || (a.inRootTask && exists entry :: entry in ReachedBy(b, facts) && entry in a.liveEntries)
    || (b.inRootTask && exists entry :: entry in ReachedBy(a, facts) && entry in b.liveEntries)
    || (exists x, y :: x in ReachedBy(a, facts) && y in ReachedBy(b, facts) && InstancesMeet(x, y, facts))
  }

  /** Nothing orders the two: no lock is held at both, and no flag publishes the one to the other. */
  ghost predicate Unordered(a: AccessFact, b: AccessFact) {
    && (forall lock :: !(lock in a.heldLocks && lock in b.heldLocks))
    && (forall flag :: !(flag in a.beforeRelease && flag in b.afterAcquire))
    && (forall flag :: !(flag in b.beforeRelease && flag in a.afterAcquire))
  }

  /** The bytes are told apart by the elements instances own, or by the object each instance was handed. */
  ghost predicate ToldApart(a: AccessFact, b: AccessFact) {
    || (a.region.elementEntry == b.region.elementEntry
        && ((a.region.elementOwner.AccessingThread? && !b.region.elementOwner.NoOwner?)
            || (b.region.elementOwner.AccessingThread? && !a.region.elementOwner.NoOwner?)))
    || (|a.instanceOwner| > 0 && a.instanceOwner == b.instanceOwner)
  }

  /** A mixed atomic and plain pair counts only when both sides are known to the byte. */
  ghost predicate MixedIsExact(a: AccessFact, b: AccessFact) {
    a.isAtomic == b.isAtomic
    || (a.region.hasKnownOffset && a.region.byteSize > 0 && b.region.hasKnownOffset && b.region.byteSize > 0
        && !a.coarseCallEffect && !b.coarseCallEffect)
  }

  /** The filters as a whole: two accesses race exactly when one writes, one is plain, some byte may be in both, they
      may be made at once, nothing orders them and nothing tells their bytes apart. */
  lemma RacesIff(a: AccessFact, b: AccessFact, facts: EntryFacts)
    ensures Races(a, b, facts)
       <==> && (a.kind == Write || b.kind == Write) && (!a.isAtomic || !b.isAtomic) && MixedIsExact(a, b)
            && a.region.SharesByte(b.region) && MayMeet(a, b, facts) && Unordered(a, b) && !ToldApart(a, b)
  {
    MayOverlapIsExact(a.region, b.region);
    ParallelIff(a.Root(), facts.EntriesOf(a.functionId), b.Root(), facts.EntriesOf(b.functionId), facts);
    hide MayHappenInParallel, MemoryRegion.MayOverlap, MemoryRegion.SharesByte, InstancesMeet;
    OrderedMeans(a, b);
    hide ShareRecognizedLock, OrderedByPublication, Unordered;
  }

  lemma OrderedMeans(a: AccessFact, b: AccessFact)
    ensures ShareRecognizedLock(a, b) || OrderedByPublication(a, b) <==> !Unordered(a, b)
  {
    assert forall lock :: lock in a.heldLocks * b.heldLocks <==> lock in a.heldLocks && lock in b.heldLocks;
    assert forall flag :: flag in a.beforeRelease * b.afterAcquire <==> flag in a.beforeRelease && flag in b.afterAcquire;
    assert forall flag :: flag in b.beforeRelease * a.afterAcquire <==> flag in b.beforeRelease && flag in a.afterAcquire;
  }

  predicate RacesWithItself(access: AccessFact, entries: set<string>, facts: EntryFacts) {
    && !access.boundBySpawn
    && (RacesWithRootTask(access.Root(), entries)
        || exists lhs, rhs | lhs in entries && rhs in entries :: Less(lhs, rhs) && EntriesOverlap(lhs, rhs, facts))
  }

  /** Two runs of one write may overlap, on different threads. */
  predicate SelfRaces(access: AccessFact, facts: EntryFacts) {
    && access.IsPlainWrite()
    && RacesWithItself(access, facts.EntriesOf(access.functionId), facts)
    && !ShareRecognizedLock(access, access)
  }

  /** Two instances of one entry may run the write at once. */
  predicate SelfConcurrentWrite(access: AccessFact, facts: EntryFacts) {
    && access.IsPlainWrite()
    && (exists entry | entry in facts.EntriesOf(access.functionId) :: facts.IsSelfConcurrentEntry(entry))
    && !InOwnObjectsOfInstances(access, access)
    && access.region.MayOverlap(access.region)
    && !ShareRecognizedLock(access, access)
  }

  /** One plain write races with itself exactly when the initial thread makes it while an entry that reaches it is alive,
      or two entries that no join orders reach it, no lock being held and no spawn binding it to one run. */
  lemma SelfRacesIff(access: AccessFact, facts: EntryFacts)
    ensures SelfRaces(access, facts)
       <==> && access.kind == Write && !access.isAtomic && !access.boundBySpawn && access.heldLocks == {}
            && (|| (access.inRootTask && exists entry :: entry in ReachedBy(access, facts) && entry in access.liveEntries)
                || exists x, y :: x in ReachedBy(access, facts) && y in ReachedBy(access, facts) && x != y
                                  && InstancesMeet(x, y, facts))
  {
    assert access.heldLocks * access.heldLocks == access.heldLocks;
    forall x, y
      ensures Less(x, y) || x == y || Less(y, x)
      ensures EntriesOverlap(x, y, facts) <==> EntriesOverlap(y, x, facts)
      ensures Less(x, y) ==> x != y
      ensures InstancesMeet(x, y, facts) <==> EntriesOverlap(x, y, facts)
    {
      LessTrichotomy(x, y);
      EntriesOverlapSymmetric(x, y, facts);
    }
    hide EntriesOverlap, InstancesMeet, Less;
  }

  /** A write two instances of one entry make at once, exactly when some entry that reaches it is started more than once,
      no lock is held and no ownership tells the instances apart. */
  lemma SelfConcurrentIff(access: AccessFact, facts: EntryFacts)
    ensures SelfConcurrentWrite(access, facts)
       <==> && access.kind == Write && !access.isAtomic && access.heldLocks == {} && |access.instanceOwner| == 0
            && !access.region.elementOwner.AccessingThread?
            && exists entry :: entry in ReachedBy(access, facts) && InstancesMeet(entry, entry, facts)
  {
    assert access.heldLocks * access.heldLocks == access.heldLocks;
    assert forall entry :: facts.IsSelfConcurrentEntry(entry) <==> InstancesMeet(entry, entry, facts);
  }

  // ----- locations and the better of two pairs -----------------------------------------------------

  datatype Pair = Pair(lhs: AccessFact, rhs: AccessFact) {
    predicate IsPrecise() {
      lhs.IsPrecise() && rhs.IsPrecise()
    }
  }

  datatype Offset = Anywhere | At(byte: int)

  /** One memory location raced in one concurrency context. */
  datatype Location = Location(symbol: string, offset: Offset, contexts: multiset<set<string>>)

  function LocationOf(pair: Pair, facts: EntryFacts): Location {
    var lhs, rhs := pair.lhs.region, pair.rhs.region;
    Location(pair.lhs.symbol,
             if !lhs.hasKnownOffset || !rhs.hasKnownOffset then Anywhere
             else At(if rhs.byteOffset < lhs.byteOffset then rhs.byteOffset else lhs.byteOffset),
             multiset{facts.EntriesOf(pair.lhs.functionId), facts.EntriesOf(pair.rhs.functionId)})
  }

  datatype Confidence = Low | Medium | High

  function InferConfidence(pair: Pair): Confidence {
    if pair.lhs.aliasProvenance.MayAlias? || pair.rhs.aliasProvenance.MayAlias? then Low
    else if pair.lhs.aliasProvenance.MustAlias? || pair.rhs.aliasProvenance.MustAlias? then Medium
    else High
  }

  /** How much a pair tells the reader. */
  datatype Standing = Standing(isPrecise: bool, showsLoweredOrigin: bool, confidence: Confidence, isWriteWrite: bool)

  function StandingOf(pair: Pair): Standing {
    Standing(pair.IsPrecise(), pair.lhs.userLocation != pair.lhs.loweredLocation, InferConfidence(pair),
             pair.lhs.kind.Write? && pair.rhs.kind.Write?)
  }

  predicate AboveConfidence(a: Confidence, b: Confidence) {
    (a.High? && !b.High?) || (a.Medium? && b.Low?)
  }

  /** The order of tuples: the first field that differs decides. */
  predicate Above(a: Standing, b: Standing) {
    if a.isPrecise != b.isPrecise then a.isPrecise
    else if a.showsLoweredOrigin != b.showsLoweredOrigin then a.showsLoweredOrigin
    else if a.confidence != b.confidence then AboveConfidence(a.confidence, b.confidence)
    else a.isWriteWrite && !b.isWriteWrite
  }

  lemma AboveOrders(a: Standing, b: Standing, c: Standing)
    ensures !Above(a, a)
    ensures Above(a, b) && !Above(c, b) ==> Above(a, c)
    ensures Above(a, b) ==> !Above(b, a)
    ensures !Above(a, b) && Above(c, b) ==> Above(c, a)
  {
  }

  /** Standings as numbers: precision first, then the lowered origin, the confidence, and two writes. */
  ghost function Weight(s: Standing): nat {
    (if s.isPrecise then 12 else 0) + (if s.showsLoweredOrigin then 6 else 0)
    + (match s.confidence case High => 4 case Medium => 2 case Low => 0) + (if s.isWriteWrite then 1 else 0)
  }

  /** The better pair is the heavier. */
  lemma AboveIsHeavier(a: Standing, b: Standing)
    ensures Above(a, b) <==> Weight(a) > Weight(b)
    ensures Weight(a) == Weight(b) ==> a == b
  {
  }

  /** What each field of a standing says of the two accesses. */
  lemma StandingMeans(a: AccessFact, b: AccessFact)
    ensures var s := StandingOf(Pair(a, b));
            && (s.isPrecise <==> !(a.coarseCallEffect || b.coarseCallEffect || a.guessedIdentity || b.guessedIdentity))
            && (s.showsLoweredOrigin <==> a.userLocation != a.loweredLocation)
            && (s.confidence == Low <==> MayAlias in {a.aliasProvenance, b.aliasProvenance})
            && (s.confidence == High <==> a.aliasProvenance == b.aliasProvenance == Direct)
            && (s.isWriteWrite <==> a.kind == b.kind == Write)
  {
  }

  /** The offset a location is reported at: the lesser of two known ones, none when one is unknown. */
  ghost predicate StartsAt(a: AccessFact, b: AccessFact, byte: int) {
    && a.region.hasKnownOffset && b.region.hasKnownOffset && byte <= a.region.byteOffset && byte <= b.region.byteOffset
    && byte in {a.region.byteOffset, b.region.byteOffset}
  }

  /** Two pairs of one symbol share a location exactly when they start at the same byte, or both at an unknown one, and
      are raced by the same two contexts. */
  lemma SameLocationIff(a: AccessFact, b: AccessFact, c: AccessFact, d: AccessFact, facts: EntryFacts)
    requires a.symbol == c.symbol
    ensures LocationOf(Pair(a, b), facts) == LocationOf(Pair(c, d), facts)
       <==> && (forall byte :: StartsAt(a, b, byte) <==> StartsAt(c, d, byte))
            && multiset{ReachedBy(a, facts), ReachedBy(b, facts)} == multiset{ReachedBy(c, facts), ReachedBy(d, facts)}
  {
    var one, other := LocationOf(Pair(a, b), facts), LocationOf(Pair(c, d), facts);
    forall byte
      ensures StartsAt(a, b, byte) <==> one.offset == At(byte)
      ensures StartsAt(c, d, byte) <==> other.offset == At(byte)
    {
      OffsetMeans(a, b, facts, byte);
      OffsetMeans(c, d, facts, byte);
    }
    assert one.contexts == multiset{ReachedBy(a, facts), ReachedBy(b, facts)};
    assert other.contexts == multiset{ReachedBy(c, facts), ReachedBy(d, facts)};
    assert one.symbol == a.symbol && other.symbol == c.symbol;
    hide LocationOf, StartsAt, ReachedBy;
    if one.offset.At? {
      assert StartsAt(a, b, one.offset.byte);
    }
    if other.offset.At? {
      assert StartsAt(c, d, other.offset.byte);
    }
  }

  lemma OffsetMeans(a: AccessFact, b: AccessFact, facts: EntryFacts, byte: int)
    ensures StartsAt(a, b, byte) <==> LocationOf(Pair(a, b), facts).offset == At(byte)
  {
  }

  // ----- the pairs of a symbol's accesses ----------------------------------------------------------

  function Row(accesses: seq<AccessFact>, i: nat, to: nat): seq<Pair>
    requires i < to <= |accesses|
  {
    seq(to - i - 1, k requires 0 <= k < to - i - 1 => Pair(accesses[i], accesses[i + 1 + k]))
  }

  function Rows(accesses: seq<AccessFact>, i: nat): seq<Pair>
    requires i <= |accesses|
  {
    if i == 0 then [] else Rows(accesses, i - 1) + Row(accesses, i - 1, |accesses|)
  }

  /** Every pair of two accesses, in the order they are compared. */
  function PairsOf(accesses: seq<AccessFact>): seq<Pair> {
    Rows(accesses, |accesses|)
  }

  ghost predicate AnyPrecise(scanned: seq<Pair>, facts: EntryFacts) {
    exists pair | pair in scanned :: Races(pair.lhs, pair.rhs, facts) && pair.IsPrecise()
  }

  /** The racing pairs that are counted: an approximate one only while no precise one has been met. */
  ghost function Admitted(scanned: seq<Pair>, facts: EntryFacts): seq<Pair> {
    if scanned == [] then []
    else
      var before, pair := scanned[..|scanned| - 1], scanned[|scanned| - 1];
      if Races(pair.lhs, pair.rhs, facts) && (pair.IsPrecise() || !AnyPrecise(before, facts))
      then Admitted(before, facts) + [pair]
      else Admitted(before, facts)
  }

  ghost function CountAt(admitted: seq<Pair>, location: Location, facts: EntryFacts): nat {
    if admitted == [] then 0
    else
      var last := |admitted| - 1;
      CountAt(admitted[..last], location, facts) + (if LocationOf(admitted[last], facts) == location then 1 else 0)
  }

  // ----- grouping ----------------------------------------------------------------------------------

  datatype LocationConflict = LocationConflict(pair: Pair, standing: Standing, additionalPairs: nat)

  type Conflicts = map<Location, LocationConflict>

  /** The first of the location's pairs that no other of them stands above. */
  ghost predicate IsBest(admitted: seq<Pair>, location: Location, at: nat, facts: EntryFacts) {
    && at < |admitted| && LocationOf(admitted[at], facts) == location
    && (forall k: nat | k < at && LocationOf(admitted[k], facts) == location ::
          Above(StandingOf(admitted[at]), StandingOf(admitted[k])))
    && (forall k: nat | at < k < |admitted| && LocationOf(admitted[k], facts) == location ::
          !Above(StandingOf(admitted[k]), StandingOf(admitted[at])))
  }

  /** The conflict stands for all the location's pairs: its own is the best, and it counts the rest. */
  ghost predicate StandsFor(conflict: LocationConflict, admitted: seq<Pair>, location: Location, facts: EntryFacts) {
    && 1 + conflict.additionalPairs == CountAt(admitted, location, facts)
    && conflict.standing == StandingOf(conflict.pair)
    && exists at: nat | at < |admitted| :: IsBest(admitted, location, at, facts) && admitted[at] == conflict.pair
  }

  ghost predicate IsGrouping(conflicts: Conflicts, admitted: seq<Pair>, facts: EntryFacts) {
    && (forall pair | pair in admitted :: LocationOf(pair, facts) in conflicts)
    && (forall location | location in conflicts :: StandsFor(conflicts[location], admitted, location, facts))
  }

  /** All the pairs the conflicts account for. */
  ghost function Total(conflicts: Conflicts): nat {
    if conflicts == map[] then 0
    else
      var location :| location in conflicts;
      1 + conflicts[location].additionalPairs + Total(conflicts - {location})
  }

  lemma {:induction false} TotalSplits(conflicts: Conflicts, location: Location)
    requires location in conflicts
    ensures Total(conflicts) == 1 + conflicts[location].additionalPairs + Total(conflicts - {location})
    decreases |conflicts|
  {
    var chosen :| chosen in conflicts && Total(conflicts)
                    == 1 + conflicts[chosen].additionalPairs + Total(conflicts - {chosen});
    if chosen != location {
      TotalSplits(conflicts - {chosen}, location);
      TotalSplits(conflicts - {location}, chosen);
      assert conflicts - {chosen} - {location} == conflicts - {location} - {chosen};
    }
  }

  function Counted(conflicts: Conflicts, pair: Pair, facts: EntryFacts): LocationConflict {
    var location, standing := LocationOf(pair, facts), StandingOf(pair);
    if location !in conflicts then LocationConflict(pair, standing, 0)
    else
      var conflict := conflicts[location];
      if Above(standing, conflict.standing) then LocationConflict(pair, standing, conflict.additionalPairs + 1)
      else conflict.(additionalPairs := conflict.additionalPairs + 1)
  }

  lemma CountedTotal(conflicts: Conflicts, pair: Pair, facts: EntryFacts)
    ensures Total(conflicts[LocationOf(pair, facts) := Counted(conflicts, pair, facts)]) == Total(conflicts) + 1
  {
    var location := LocationOf(pair, facts);
    var more := conflicts[location := Counted(conflicts, pair, facts)];
    TotalSplits(more, location);
    assert more - {location} == conflicts - {location};
    if location in conflicts {
      TotalSplits(conflicts, location);
    } else {
      assert conflicts - {location} == conflicts;
    }
  }

  lemma CountAtMore(admitted: seq<Pair>, pair: Pair, location: Location, facts: EntryFacts)
    ensures CountAt(admitted + [pair], location, facts)
         == CountAt(admitted, location, facts) + (if LocationOf(pair, facts) == location then 1 else 0)
  {
    assert (admitted + [pair])[..|admitted|] == admitted;
  }

  lemma {:induction false} CountAtNone(admitted: seq<Pair>, location: Location, facts: EntryFacts)
    requires forall pair | pair in admitted :: LocationOf(pair, facts) != location
    ensures CountAt(admitted, location, facts) == 0
  {
    if admitted != [] {
      CountAtNone(admitted[..|admitted| - 1], location, facts);
    }
  }

  lemma BestKept(admitted: seq<Pair>, pair: Pair, location: Location, at: nat, facts: EntryFacts)
    requires IsBest(admitted, location, at, facts)
    requires LocationOf(pair, facts) == location ==> !Above(StandingOf(pair), StandingOf(admitted[at]))
    ensures IsBest(admitted + [pair], location, at, facts)
  {
    hide LocationOf, StandingOf, Above;
    var more := admitted + [pair];
    assert forall k: nat | k < |admitted| :: more[k] == admitted[k];
  }

  lemma BestReplaced(admitted: seq<Pair>, pair: Pair, at: nat, facts: EntryFacts)
    requires IsBest(admitted, LocationOf(pair, facts), at, facts)
    requires Above(StandingOf(pair), StandingOf(admitted[at]))
    ensures IsBest(admitted + [pair], LocationOf(pair, facts), |admitted|, facts)
  {
    var more := admitted + [pair];
    forall k: nat | k < |admitted| && LocationOf(admitted[k], facts) == LocationOf(pair, facts)
      ensures Above(StandingOf(pair), StandingOf(admitted[k]))
    {
      hide LocationOf, StandingOf;
      AboveOrders(StandingOf(pair), StandingOf(admitted[at]), StandingOf(admitted[k]));
      AboveOrders(StandingOf(admitted[at]), StandingOf(admitted[k]), StandingOf(admitted[at]));
      hide Above;
      assert k == at || k < at || at < k;
    }
    hide LocationOf, StandingOf, Above;
    assert forall k: nat | k < |admitted| :: more[k] == admitted[k];
    assert more[|admitted|] == pair;
  }

  lemma BestFirst(admitted: seq<Pair>, pair: Pair, facts: EntryFacts)
    requires forall earlier | earlier in admitted :: LocationOf(earlier, facts) != LocationOf(pair, facts)
    ensures IsBest(admitted + [pair], LocationOf(pair, facts), |admitted|, facts)
  {
    hide LocationOf, StandingOf, Above;
    var more := admitted + [pair];
    assert forall k: nat | k < |admitted| :: more[k] == admitted[k] && admitted[k] in admitted;
    assert more[|admitted|] == pair;
  }

  lemma OtherLocationKept(conflict: LocationConflict, admitted: seq<Pair>, pair: Pair, location: Location,
                          facts: EntryFacts)
    requires StandsFor(conflict, admitted, location, facts) && LocationOf(pair, facts) != location
    ensures StandsFor(conflict, admitted + [pair], location, facts)
  {
    hide LocationOf, StandingOf, Above, IsBest;
    var at: nat :| at < |admitted| && IsBest(admitted, location, at, facts) && admitted[at] == conflict.pair;
    BestKept(admitted, pair, location, at, facts);
    assert (admitted + [pair])[at] == conflict.pair;
    CountAtMore(admitted, pair, location, facts);
  }

  /** The pair's own location, after it is counted there. */
  lemma CountedStandsFor(conflicts: Conflicts, admitted: seq<Pair>, pair: Pair, facts: EntryFacts)
    requires IsGrouping(conflicts, admitted, facts)
    ensures StandsFor(Counted(conflicts, pair, facts), admitted + [pair], LocationOf(pair, facts), facts)
  {
    hide LocationOf, StandingOf, Above, IsBest;
    var location := LocationOf(pair, facts);
    CountAtMore(admitted, pair, location, facts);
    var more := admitted + [pair];
    assert more[|admitted|] == pair;
    if location !in conflicts {
      BestFirst(admitted, pair, facts);
      CountAtNone(admitted, location, facts);
    } else {
      var conflict := conflicts[location];
      assert StandsFor(conflict, admitted, location, facts);
      var at: nat :| at < |admitted| && IsBest(admitted, location, at, facts) && admitted[at] == conflict.pair;
      if Above(StandingOf(pair), conflict.standing) {
        BestReplaced(admitted, pair, at, facts);
      } else {
        BestKept(admitted, pair, location, at, facts);
        assert more[at] == conflict.pair;
      }
    }
  }

  lemma CountedIsGrouping(conflicts: Conflicts, admitted: seq<Pair>, pair: Pair, facts: EntryFacts)
    requires IsGrouping(conflicts, admitted, facts)
    ensures IsGrouping(conflicts[LocationOf(pair, facts) := Counted(conflicts, pair, facts)], admitted + [pair], facts)
  {
    hide LocationOf, StandsFor, Counted;
    CountedStandsFor(conflicts, admitted, pair, facts);
    forall location | location in conflicts && location != LocationOf(pair, facts)
      ensures StandsFor(conflicts[location], admitted + [pair], location, facts)
    {
      OtherLocationKept(conflicts[location], admitted, pair, location, facts);
    }
  }

  lemma AdmittedMore(scanned: seq<Pair>, pair: Pair, facts: EntryFacts)
    ensures Admitted(scanned + [pair], facts)
         == Admitted(scanned, facts)
            + (if Races(pair.lhs, pair.rhs, facts) && (pair.IsPrecise() || !AnyPrecise(scanned, facts)) then [pair] else [])
    ensures AnyPrecise(scanned + [pair], facts)
       <==> AnyPrecise(scanned, facts) || (Races(pair.lhs, pair.rhs, facts) && pair.IsPrecise())
  {
    hide Races;
    assert (scanned + [pair])[..|scanned|] == scanned;
    assert pair in scanned + [pair];
  }

  /** What one pair of the scan changes. */
  method ComparePair(pair: Pair, facts: EntryFacts, conflicts: Conflicts, precise: set<string>,
                     ghost scanned: seq<Pair>)
    returns (more: Conflicts, morePrecise: set<string>)
    requires IsGrouping(conflicts, Admitted(scanned, facts), facts)
    requires Total(conflicts) == |Admitted(scanned, facts)|
    requires precise == if AnyPrecise(scanned, facts) then {pair.lhs.symbol} else {}
    ensures IsGrouping(more, Admitted(scanned + [pair], facts), facts)
    ensures Total(more) == |Admitted(scanned + [pair], facts)|
    ensures morePrecise == if AnyPrecise(scanned + [pair], facts) then {pair.lhs.symbol} else {}
  {
    hide IsGrouping, Total, Admitted, AnyPrecise, LocationOf, Races;
    AdmittedMore(scanned, pair, facts);
    assert Admitted(scanned, facts) + [] == Admitted(scanned, facts);
    more, morePrecise := conflicts, precise;
    if !Races(pair.lhs, pair.rhs, facts) {
      return;
    }
    if pair.IsPrecise() {
      morePrecise := morePrecise + {pair.lhs.symbol};
    } else if pair.lhs.symbol in precise {
      return;
    }
    CountedIsGrouping(conflicts, Admitted(scanned, facts), pair, facts);
    CountedTotal(conflicts, pair, facts);
    more := conflicts[LocationOf(pair, facts) := Counted(conflicts, pair, facts)];
  }

  /** All accesses are of one symbol. */
  ghost predicate OneSymbol(accesses: seq<AccessFact>, symbol: string) {
    forall access | access in accesses :: access.symbol == symbol
  }

  /** Compares every pair of a symbol's accesses. Each location the admitted pairs name gets one conflict, which holds
      its best pair and the number of its others; together they account for every admitted pair. */
  method GroupPairs(accesses: seq<AccessFact>, symbol: string, facts: EntryFacts)
    returns (conflicts: Conflicts, precise: set<string>)
    requires OneSymbol(accesses, symbol)
    ensures IsGrouping(conflicts, Admitted(PairsOf(accesses), facts), facts)
    ensures Total(conflicts) == |Admitted(PairsOf(accesses), facts)|
    ensures precise == if AnyPrecise(PairsOf(accesses), facts) then {symbol} else {}
  {
    hide IsGrouping, Total, Admitted, AnyPrecise;
    conflicts, precise := map[], {};
    NothingGrouped(facts);
    for i := 0 to |accesses|
      invariant IsGrouping(conflicts, Admitted(Rows(accesses, i), facts), facts)
      invariant Total(conflicts) == |Admitted(Rows(accesses, i), facts)|
      invariant precise == if AnyPrecise(Rows(accesses, i), facts) then {symbol} else {}
    {
      ghost var rows := Rows(accesses, i);
      assert rows + Row(accesses, i, i + 1) == rows;
      for j := i + 1 to |accesses|
        invariant IsGrouping(conflicts, Admitted(rows + Row(accesses, i, j), facts), facts)
        invariant Total(conflicts) == |Admitted(rows + Row(accesses, i, j), facts)|
        invariant precise == if AnyPrecise(rows + Row(accesses, i, j), facts) then {symbol} else {}
      {
        ghost var scanned := rows + Row(accesses, i, j);
        var pair := Pair(accesses[i], accesses[j]);
        assert accesses[i] in accesses;
        conflicts, precise := ComparePair(pair, facts, conflicts, precise, scanned);
        assert rows + Row(accesses, i, j + 1) == scanned + [pair];
      }
    }
  }

  lemma NothingGrouped(facts: EntryFacts)
    ensures IsGrouping(map[], Admitted([], facts), facts)
    ensures Total(map[]) == |Admitted([], facts)| && !AnyPrecise([], facts)
  {
  }

  // ----- an access compared with itself ------------------------------------------------------------

  /** The access adds a conflict with itself, unless its location already has one. */
  predicate Counts(access: AccessFact, precise: set<string>, facts: EntryFacts) {
    SelfRaces(access, facts) && (access.IsPrecise() || access.symbol !in precise)
  }

  ghost predicate FirstOfLocation(accesses: seq<AccessFact>, at: nat, location: Location, precise: set<string>,
                                  facts: EntryFacts)
  {
    && at < |accesses| && Counts(accesses[at], precise, facts)
    && LocationOf(Pair(accesses[at], accesses[at]), facts) == location
    && forall k: nat | k < at && Counts(accesses[k], precise, facts) ::
         LocationOf(Pair(accesses[k], accesses[k]), facts) != location
  }

  ghost predicate FromFirst(conflict: LocationConflict, accesses: seq<AccessFact>, location: Location,
                            precise: set<string>, facts: EntryFacts)
  {
    exists at: nat | at < |accesses| ::
      && FirstOfLocation(accesses, at, location, precise, facts)
      && conflict == LocationConflict(Pair(accesses[at], accesses[at]), StandingOf(Pair(accesses[at], accesses[at])), 0)
  }

  /** `more` adds to `conflicts` one conflict for each location that only accesses racing with themselves name. */
  ghost predicate AddsSelfRaces(conflicts: Conflicts, more: Conflicts, accesses: seq<AccessFact>, precise: set<string>,
                                facts: EntryFacts)
  {
    && (forall location | location in conflicts :: location in more && more[location] == conflicts[location])
    && (forall location | location in more && location !in conflicts ::
          FromFirst(more[location], accesses, location, precise, facts))
    && (forall access | access in accesses && Counts(access, precise, facts) ::
          LocationOf(Pair(access, access), facts) in more)
  }

  lemma FromFirstKept(conflict: LocationConflict, accesses: seq<AccessFact>, access: AccessFact, location: Location,
                      precise: set<string>, facts: EntryFacts)
    requires FromFirst(conflict, accesses, location, precise, facts)
    ensures FromFirst(conflict, accesses + [access], location, precise, facts)
  {
    hide Counts, LocationOf, StandingOf;
    var at: nat :| at < |accesses| && FirstOfLocation(accesses, at, location, precise, facts)
      && conflict == LocationConflict(Pair(accesses[at], accesses[at]), StandingOf(Pair(accesses[at], accesses[at])), 0);
    var longer := accesses + [access];
    assert forall k: nat | k < |accesses| :: longer[k] == accesses[k];
    assert FirstOfLocation(longer, at, location, precise, facts);
  }

  lemma SelfRaceAdded(conflicts: Conflicts, more: Conflicts, accesses: seq<AccessFact>, access: AccessFact,
                      precise: set<string>, facts: EntryFacts)
    requires AddsSelfRaces(conflicts, more, accesses, precise, facts) && Counts(access, precise, facts)
    requires LocationOf(Pair(access, access), facts) !in more
    ensures AddsSelfRaces(conflicts, more[LocationOf(Pair(access, access), facts) :=
              LocationConflict(Pair(access, access), StandingOf(Pair(access, access)), 0)], accesses + [access], precise, facts)
  {
    hide Counts, LocationOf, StandingOf, FromFirst;
    var location := LocationOf(Pair(access, access), facts);
    var conflict := LocationConflict(Pair(access, access), StandingOf(Pair(access, access)), 0);
    var longer := accesses + [access];
    assert FromFirst(conflict, longer, location, precise, facts) by {
      FirstAtEnd(conflict, accesses, access, more, precise, facts);
    }
    forall other | other in more && other !in conflicts
      ensures FromFirst(more[other], longer, other, precise, facts)
    {
      FromFirstKept(more[other], accesses, access, other, precise, facts);
    }
  }

  lemma FirstAtEnd(conflict: LocationConflict, accesses: seq<AccessFact>, access: AccessFact, more: Conflicts,
                   precise: set<string>, facts: EntryFacts)
    requires conflict == LocationConflict(Pair(access, access), StandingOf(Pair(access, access)), 0)
    requires Counts(access, precise, facts) && LocationOf(Pair(access, access), facts) !in more
    requires forall earlier | earlier in accesses && Counts(earlier, precise, facts) ::
               LocationOf(Pair(earlier, earlier), facts) in more
    ensures FromFirst(conflict, accesses + [access], LocationOf(Pair(access, access), facts), precise, facts)
  {
    hide Counts, LocationOf, StandingOf;
    var longer := accesses + [access];
    assert forall k: nat | k < |accesses| :: longer[k] == accesses[k] && accesses[k] in accesses;
    assert longer[|accesses|] == access;
    assert FirstOfLocation(longer, |accesses|, LocationOf(Pair(access, access), facts), precise, facts);
  }

  lemma SelfRacePassed(conflicts: Conflicts, more: Conflicts, accesses: seq<AccessFact>, access: AccessFact,
                       precise: set<string>, facts: EntryFacts)
    requires AddsSelfRaces(conflicts, more, accesses, precise, facts)
    requires !Counts(access, precise, facts) || LocationOf(Pair(access, access), facts) in more
    ensures AddsSelfRaces(conflicts, more, accesses + [access], precise, facts)
  {
    hide Counts, LocationOf, StandingOf, FromFirst;
    forall other | other in more && other !in conflicts
      ensures FromFirst(more[other], accesses + [access], other, precise, facts)
    {
      FromFirstKept(more[other], accesses, access, other, precise, facts);
    }
  }

  method AddSelfRaces(accesses: seq<AccessFact>, facts: EntryFacts, conflicts: Conflicts, precise: set<string>)
    returns (more: Conflicts)
    ensures AddsSelfRaces(conflicts, more, accesses, precise, facts)
  {
    hide AddsSelfRaces;
    more := conflicts;
    assert AddsSelfRaces(conflicts, more, accesses[..0], precise, facts) by {
      NothingAdded(conflicts, precise, facts);
    }
    for i := 0 to |accesses|
      invariant AddsSelfRaces(conflicts, more, accesses[..i], precise, facts)
    {
      hide SelfRaces, LocationOf;
      var access := accesses[i];
      assert accesses[..i + 1] == accesses[..i] + [access];
      if SelfRaces(access, facts) && (access.IsPrecise() || access.symbol !in precise)
         && LocationOf(Pair(access, access), facts) !in more
      {
        SelfRaceAdded(conflicts, more, accesses[..i], access, precise, facts);
        more := more[LocationOf(Pair(access, access), facts) :=
          LocationConflict(Pair(access, access), StandingOf(Pair(access, access)), 0)];
      } else {
        SelfRacePassed(conflicts, more, accesses[..i], access, precise, facts);
      }
    }
    assert accesses[..|accesses|] == accesses;
  }

  lemma NothingAdded(conflicts: Conflicts, precise: set<string>, facts: EntryFacts)
    ensures AddsSelfRaces(conflicts, conflicts, [], precise, facts)
  {
  }

  /** The first write two instances of one entry may run at once. */
  method FirstSelfConcurrent(accesses: seq<AccessFact>, facts: EntryFacts) returns (found: ControlFlow.Option<nat>)
    ensures found.Some? ==> found.value < |accesses| && SelfConcurrentWrite(accesses[found.value], facts)
                            && forall k: nat | k < found.value :: !SelfConcurrentWrite(accesses[k], facts)
    ensures found.None? ==> forall access | access in accesses :: !SelfConcurrentWrite(access, facts)
  {
    hide SelfConcurrentWrite;
    for i := 0 to |accesses|
      invariant forall k: nat | k < i :: !SelfConcurrentWrite(accesses[k], facts)
    {
      if SelfConcurrentWrite(accesses[i], facts) {
        return ControlFlow.Some(i);
      }
    }
    return ControlFlow.None;
  }

  // ----- what decides whether a symbol is reported -------------------------------------------------

  /** Some two of the accesses race, whatever the order they come in. */
  ghost predicate SomePairRaces(accesses: multiset<AccessFact>, facts: EntryFacts) {
    exists a, b :: multiset{a, b} <= accesses && Races(a, b, facts)
  }

  ghost predicate IsReported(accesses: multiset<AccessFact>, facts: EntryFacts) {
    || SomePairRaces(accesses, facts)
    || (exists access | access in accesses :: SelfRaces(access, facts))
    || (exists access | access in accesses :: SelfConcurrentWrite(access, facts))
  }

  lemma {:induction false} RowsHold(accesses: seq<AccessFact>, rows: nat, pair: Pair)
    requires rows <= |accesses|
    ensures pair in Rows(accesses, rows)
       <==> exists i: nat, j: nat | i < rows && i < j < |accesses| :: accesses[i] == pair.lhs && accesses[j] == pair.rhs
  {
    if rows > 0 {
      RowsHold(accesses, rows - 1, pair);
      var i, row := rows - 1, Row(accesses, rows - 1, |accesses|);
      if pair in row {
        var k :| 0 <= k < |row| && row[k] == pair;
        assert accesses[i] == pair.lhs && accesses[i + 1 + k] == pair.rhs;
      }
      if j: nat :| i < j < |accesses| && accesses[i] == pair.lhs && accesses[j] == pair.rhs {
        assert row[j - i - 1] == pair;
      }
    }
  }

  lemma TwoOf(accesses: seq<AccessFact>, i: nat, j: nat)
    requires i < j < |accesses|
    ensures multiset{accesses[i], accesses[j]} <= multiset(accesses)
  {
    var head, tail := accesses[..j], accesses[j..];
    assert accesses == head + tail;
    assert accesses[i] == head[i] && accesses[j] == tail[0];
    assert head[i] in head && tail[0] in tail;
    assert multiset{head[i]} <= multiset(head) && multiset{tail[0]} <= multiset(tail);
    assert multiset(accesses) == multiset(head) + multiset(tail);
  }

  lemma PositionsOf(accesses: seq<AccessFact>, a: AccessFact, b: AccessFact) returns (i: nat, j: nat)
    requires multiset{a, b} <= multiset(accesses)
    ensures i < |accesses| && j < |accesses| && i != j && accesses[i] == a && accesses[j] == b
  {
    assert a in multiset{a, b};
    assert a in multiset(accesses);
    i :| i < |accesses| && accesses[i] == a;
    var rest := accesses[..i] + accesses[i + 1..];
    WithoutOne(accesses, i, b);
    assert multiset{a, b}[b] <= multiset(accesses)[b];
    assert b in multiset(rest);
    var k: nat :| k < |rest| && rest[k] == b;
    j := if k < i then k else k + 1;
  }

  lemma WithoutOne(accesses: seq<AccessFact>, i: nat, b: AccessFact)
    requires i < |accesses|
    ensures multiset(accesses[..i] + accesses[i + 1..])[b] == multiset(accesses)[b] - multiset{accesses[i]}[b]
  {
    assert accesses == accesses[..i] + [accesses[i]] + accesses[i + 1..];
  }

  lemma ComparedAt(accesses: seq<AccessFact>, i: nat, j: nat)
    requires i < j < |accesses|
    ensures Pair(accesses[i], accesses[j]) in PairsOf(accesses)
  {
    RowsHold(accesses, |accesses|, Pair(accesses[i], accesses[j]));
  }

  lemma ComparedIsTwoOf(accesses: seq<AccessFact>, pair: Pair)
    requires pair in PairsOf(accesses)
    ensures multiset{pair.lhs, pair.rhs} <= multiset(accesses)
  {
    RowsHold(accesses, |accesses|, pair);
    hide Rows;
    var i: nat, j: nat :| i < j < |accesses| && accesses[i] == pair.lhs && accesses[j] == pair.rhs;
    TwoOf(accesses, i, j);
  }

  /** The pairs compared are the two-element parts of the accesses. */
  lemma ComparedPairs(accesses: seq<AccessFact>, a: AccessFact, b: AccessFact)
    ensures multiset{a, b} <= multiset(accesses) <==> Pair(a, b) in PairsOf(accesses) || Pair(b, a) in PairsOf(accesses)
  {
    hide PairsOf;
    if multiset{a, b} <= multiset(accesses) {
      var i, j := PositionsOf(accesses, a, b);
      if i < j {
        ComparedAt(accesses, i, j);
      } else {
        ComparedAt(accesses, j, i);
      }
    }
    if Pair(a, b) in PairsOf(accesses) {
      ComparedIsTwoOf(accesses, Pair(a, b));
    }
    if Pair(b, a) in PairsOf(accesses) {
      ComparedIsTwoOf(accesses, Pair(b, a));
      assert multiset{a, b} == multiset{b, a};
    }
  }

  /** Where the scan compares the accesses at two positions. */
  ghost function ScanPosition(accesses: seq<AccessFact>, i: nat, j: nat): nat
    requires i < j < |accesses|
  {
    |Rows(accesses, i)| + j - i - 1
  }

  ghost predicate ComparesSome(accesses: seq<AccessFact>, position: nat) {
    exists i: nat, j: nat | i < j < |accesses| :: ScanPosition(accesses, i, j) == position
  }

  lemma {:induction false} RowsExtend(accesses: seq<AccessFact>, i: nat, rows: nat)
    requires i <= rows <= |accesses|
    ensures Rows(accesses, i) <= Rows(accesses, rows)
  {
    if i < rows {
      RowsExtend(accesses, i, rows - 1);
    }
  }

  lemma ScannedAt(accesses: seq<AccessFact>, i: nat, j: nat)
    requires i < j < |accesses|
    ensures ScanPosition(accesses, i, j) < |Rows(accesses, i + 1)| <= |PairsOf(accesses)|
    ensures PairsOf(accesses)[ScanPosition(accesses, i, j)] == Pair(accesses[i], accesses[j])
  {
    RowsExtend(accesses, i + 1, |accesses|);
    assert Rows(accesses, i + 1) == Rows(accesses, i) + Row(accesses, i, |accesses|);
    assert Rows(accesses, i + 1)[ScanPosition(accesses, i, j)] == Row(accesses, i, |accesses|)[j - i - 1];
  }

  lemma ScannedApart(accesses: seq<AccessFact>, i: nat, j: nat, k: nat, l: nat)
    requires i < j < |accesses| && k < l < |accesses| && ScanPosition(accesses, i, j) == ScanPosition(accesses, k, l)
    ensures i == k && j == l
  {
    hide Rows, PairsOf;
    ScannedAt(accesses, i, j);
    ScannedAt(accesses, k, l);
    if i < k {
      RowsExtend(accesses, i + 1, k);
    } else if k < i {
      RowsExtend(accesses, k + 1, i);
    }
  }

  lemma {:induction false} ScannedFrom(accesses: seq<AccessFact>, rows: nat, position: nat) returns (i: nat, j: nat)
    requires rows <= |accesses| && position < |Rows(accesses, rows)|
    ensures i < j < |accesses| && ScanPosition(accesses, i, j) == position
  {
    if position < |Rows(accesses, rows - 1)| {
      i, j := ScannedFrom(accesses, rows - 1, position);
    } else {
      i, j := rows - 1, position - |Rows(accesses, rows - 1)| + rows;
    }
  }

  /** The scan is a bijection: each two positions are compared at one place of it, which compares no other two, and
      every place of it compares some two. */
  lemma ComparedOnce(accesses: seq<AccessFact>)
    ensures forall i: nat, j: nat | i < j < |accesses| ::
              && ScanPosition(accesses, i, j) < |PairsOf(accesses)|
              && PairsOf(accesses)[ScanPosition(accesses, i, j)] == Pair(accesses[i], accesses[j])
    ensures forall i: nat, j: nat, k: nat, l: nat | i < j < |accesses| && k < l < |accesses|
                                                    && ScanPosition(accesses, i, j) == ScanPosition(accesses, k, l) ::
              i == k && j == l
    ensures forall position: nat | position < |PairsOf(accesses)| :: ComparesSome(accesses, position)
  {
    hide ScanPosition, PairsOf;
    forall i: nat, j: nat | i < j < |accesses|
      ensures ScanPosition(accesses, i, j) < |PairsOf(accesses)|
      ensures PairsOf(accesses)[ScanPosition(accesses, i, j)] == Pair(accesses[i], accesses[j])
    {
      ScannedAt(accesses, i, j);
    }
    forall i: nat, j: nat, k: nat, l: nat | i < j < |accesses| && k < l < |accesses|
                                            && ScanPosition(accesses, i, j) == ScanPosition(accesses, k, l)
      ensures i == k && j == l
    {
      ScannedApart(accesses, i, j, k, l);
    }
    forall position: nat | position < |PairsOf(accesses)|
      ensures ComparesSome(accesses, position)
    {
      assert position < |Rows(accesses, |accesses|)| by {
        PairsAreRows(accesses);
      }
      var i, j := ScannedFrom(accesses, |accesses|, position);
    }
  }

  lemma PairsAreRows(accesses: seq<AccessFact>)
    ensures PairsOf(accesses) == Rows(accesses, |accesses|)
  {
  }

  /** What the scan admits: precise pairs always, and approximate ones before the first precise one. */
  lemma {:induction false} AdmittedAre(scanned: seq<Pair>, facts: EntryFacts)
    ensures forall pair | pair in Admitted(scanned, facts) :: pair in scanned && Races(pair.lhs, pair.rhs, facts)
    ensures forall pair | pair in scanned && Races(pair.lhs, pair.rhs, facts) ::
              pair.IsPrecise() || !AnyPrecise(scanned, facts) ==> pair in Admitted(scanned, facts)
  {
    hide Races;
    if scanned != [] {
      AdmittedAre(scanned[..|scanned| - 1], facts);
    }
  }

  lemma SomeAdmitted(accesses: seq<AccessFact>, facts: EntryFacts)
    ensures Admitted(PairsOf(accesses), facts) != [] <==> SomePairRaces(multiset(accesses), facts)
  {
    hide Races, Rows;
    var pairs := PairsOf(accesses);
    AdmittedAre(pairs, facts);
    if Admitted(pairs, facts) != [] {
      var pair := Admitted(pairs, facts)[0];
      assert pair in Admitted(pairs, facts);
      ComparedPairs(accesses, pair.lhs, pair.rhs);
    }
    if a, b :| multiset{a, b} <= multiset(accesses) && Races(a, b, facts) {
      ComparedPairs(accesses, a, b);
      RacesSymmetric(a, b, facts);
      var pair := if Pair(a, b) in pairs then Pair(a, b) else Pair(b, a);
      assert pair in pairs && Races(pair.lhs, pair.rhs, facts);
      if AnyPrecise(pairs, facts) {
        var precise :| precise in pairs && Races(precise.lhs, precise.rhs, facts) && precise.IsPrecise();
        assert precise in Admitted(pairs, facts);
      }
    }
  }

  // ----- the checker -------------------------------------------------------------------------------

  datatype SymbolReport = SymbolReport(conflicts: Conflicts, selfConcurrent: ControlFlow.Option<nat>) {
    predicate IsEmpty() {
      conflicts == map[] && selfConcurrent.None?
    }
  }

  lemma ConflictsFound(accesses: seq<AccessFact>, symbol: string, facts: EntryFacts, grouped: Conflicts,
                       more: Conflicts, precise: set<string>)
    requires OneSymbol(accesses, symbol) && IsGrouping(grouped, Admitted(PairsOf(accesses), facts), facts)
    requires precise == if AnyPrecise(PairsOf(accesses), facts) then {symbol} else {}
    requires AddsSelfRaces(grouped, more, accesses, precise, facts)
    ensures more != map[]
       <==> SomePairRaces(multiset(accesses), facts) || exists access | access in accesses :: SelfRaces(access, facts)
  {
    hide Races, SelfRaces, Rows, Admitted, SomePairRaces, LocationOf;
    SomeAdmitted(accesses, facts);
    var admitted := Admitted(PairsOf(accesses), facts);
    if admitted != [] {
      assert admitted[0] in admitted;
      assert LocationOf(admitted[0], facts) in more;
    } else {
      NothingPrecise(accesses, facts);
      NothingToGroup(grouped, facts);
      if access :| access in accesses && SelfRaces(access, facts) {
        assert LocationOf(Pair(access, access), facts) in more;
      }
      if more != map[] {
        var location :| location in more;
        assert FromFirst(more[location], accesses, location, precise, facts);
      }
    }
  }

  lemma NothingToGroup(conflicts: Conflicts, facts: EntryFacts)
    requires IsGrouping(conflicts, [], facts)
    ensures conflicts == map[]
  {
    hide StandsFor;
    forall location
      ensures location !in conflicts
    {
      if location in conflicts {
        NoneStandsForNothing(conflicts[location], location, facts);
      }
    }
  }

  lemma NoneStandsForNothing(conflict: LocationConflict, location: Location, facts: EntryFacts)
    ensures !StandsFor(conflict, [], location, facts)
  {
  }

  lemma NothingPrecise(accesses: seq<AccessFact>, facts: EntryFacts)
    requires Admitted(PairsOf(accesses), facts) == []
    ensures !AnyPrecise(PairsOf(accesses), facts)
  {
    AdmittedAre(PairsOf(accesses), facts);
  }

  /** The symbol's conflicts are the admitted pairs grouped by location, none lost, and the accesses that race with
      themselves elsewhere; a self-concurrent write is looked for only when there are none. */
  ghost predicate IsReportOf(report: SymbolReport, accesses: seq<AccessFact>, symbol: string, facts: EntryFacts) {
    && (exists grouped: Conflicts ::
          && IsGrouping(grouped, Admitted(PairsOf(accesses), facts), facts)
          && Total(grouped) == |Admitted(PairsOf(accesses), facts)|
          && AddsSelfRaces(grouped, report.conflicts, accesses,
                           if AnyPrecise(PairsOf(accesses), facts) then {symbol} else {}, facts))
    && (report.selfConcurrent.Some? ==>
          && report.conflicts == map[] && report.selfConcurrent.value < |accesses|
          && SelfConcurrentWrite(accesses[report.selfConcurrent.value], facts)
          && forall k: nat | k < report.selfConcurrent.value :: !SelfConcurrentWrite(accesses[k], facts))
    && (report.IsEmpty() ==> forall access | access in accesses :: !SelfConcurrentWrite(access, facts))
  }

  /** One symbol's diagnostics. There is one exactly when two of its accesses race, or one races with itself. */
  method CheckSymbol(accesses: seq<AccessFact>, symbol: string, facts: EntryFacts) returns (report: SymbolReport)
    requires OneSymbol(accesses, symbol)
    ensures !report.IsEmpty() <==> IsReported(multiset(accesses), facts)
    ensures IsReportOf(report, accesses, symbol, facts)
  {
    hide IsGrouping, Total, AddsSelfRaces, SomePairRaces, AnyPrecise, Admitted, PairsOf, SelfConcurrentWrite, SelfRaces;
    var grouped, precise := GroupPairs(accesses, symbol, facts);
    var more := AddSelfRaces(accesses, facts, grouped, precise);
    ConflictsFound(accesses, symbol, facts, grouped, more, precise);
    assert forall access :: access in accesses <==> access in multiset(accesses);
    if more != map[] {
      return SymbolReport(more, ControlFlow.None);
    }
    var found := FirstSelfConcurrent(accesses, facts);
    report := SymbolReport(more, found);
    assert found.Some? ==> accesses[found.value] in multiset(accesses);
  }

  /** Code neither a thread entry nor the initial thread reaches is not looked at. */
  predicate Considered(access: AccessFact, symbol: string, facts: EntryFacts) {
    access.symbol == symbol && (access.functionId in facts.reachableThreadEntriesByFunction || access.inRootTask)
  }

  ghost function ConsideredOf(accesses: seq<AccessFact>, symbol: string, facts: EntryFacts): seq<AccessFact> {
    if accesses == [] then []
    else
      var last := accesses[|accesses| - 1];
      ConsideredOf(accesses[..|accesses| - 1], symbol, facts) + if Considered(last, symbol, facts) then [last] else []
  }

  lemma ConsideredMore(accesses: seq<AccessFact>, access: AccessFact, symbol: string, facts: EntryFacts)
    ensures ConsideredOf(accesses + [access], symbol, facts)
         == ConsideredOf(accesses, symbol, facts) + if Considered(access, symbol, facts) then [access] else []
  {
    assert (accesses + [access])[..|accesses|] == accesses;
  }

  lemma {:induction false} ConsideredMultiplicity(accesses: seq<AccessFact>, symbol: string, facts: EntryFacts,
                                                  a: AccessFact)
    ensures multiset(ConsideredOf(accesses, symbol, facts))[a]
         == if Considered(a, symbol, facts) then multiset(accesses)[a] else 0
  {
    if accesses != [] {
      var before, last := accesses[..|accesses| - 1], accesses[|accesses| - 1];
      assert accesses == before + [last];
      ConsideredMultiplicity(before, symbol, facts, a);
      ConsideredMore(before, last, symbol, facts);
    }
  }

  /** The accesses of each symbol that are looked at, in the order they were recorded. */
  method GroupBySymbol(accesses: seq<AccessFact>, facts: EntryFacts) returns (bySymbol: map<string, seq<AccessFact>>)
    ensures forall symbol :: ConsideredOf(accesses, symbol, facts)
                          == if symbol in bySymbol then bySymbol[symbol] else []
  {
    hide ConsideredOf;
    bySymbol := map[];
    assert forall symbol :: ConsideredOf(accesses[..0], symbol, facts) == [] by {
      NothingConsidered(facts);
    }
    for i := 0 to |accesses|
      invariant forall symbol :: ConsideredOf(accesses[..i], symbol, facts)
                              == if symbol in bySymbol then bySymbol[symbol] else []
    {
      var access := accesses[i];
      assert accesses[..i + 1] == accesses[..i] + [access];
      forall symbol
        ensures ConsideredOf(accesses[..i + 1], symbol, facts)
             == ConsideredOf(accesses[..i], symbol, facts) + if Considered(access, symbol, facts) then [access] else []
      {
        ConsideredMore(accesses[..i], access, symbol, facts);
      }
      if access.functionId in facts.reachableThreadEntriesByFunction || access.inRootTask {
        var earlier := if access.symbol in bySymbol then bySymbol[access.symbol] else [];
        bySymbol := bySymbol[access.symbol := earlier + [access]];
      }
    }
    assert accesses[..|accesses|] == accesses;
  }

  lemma NothingConsidered(facts: EntryFacts)
    ensures forall symbol :: ConsideredOf([], symbol, facts) == []
  {
  }

  lemma {:induction false} ConsideredSymbol(accesses: seq<AccessFact>, symbol: string, facts: EntryFacts)
    ensures OneSymbol(ConsideredOf(accesses, symbol, facts), symbol)
  {
    if accesses != [] {
      ConsideredSymbol(accesses[..|accesses| - 1], symbol, facts);
    }
  }

  /** The whole unit: a symbol gets a diagnostic exactly when its considered accesses call for one. */
  method Run(accesses: seq<AccessFact>, facts: EntryFacts) returns (reports: map<string, SymbolReport>)
    ensures forall symbol :: (symbol in reports && !reports[symbol].IsEmpty())
                        <==> IsReported(multiset(ConsideredOf(accesses, symbol, facts)), facts)
    ensures forall symbol | symbol in reports ::
              IsReportOf(reports[symbol], ConsideredOf(accesses, symbol, facts), symbol, facts)
  {
    hide IsReported, OneSymbol, IsReportOf, ConsideredOf;
    var bySymbol := GroupBySymbol(accesses, facts);
    reports := map[];
    var symbols := Sorted(bySymbol.Keys);
    for i := 0 to |symbols|
      invariant forall symbol :: symbol in reports <==> symbol in symbols[..i]
      invariant forall symbol | symbol in reports ::
                  !reports[symbol].IsEmpty() <==> IsReported(multiset(ConsideredOf(accesses, symbol, facts)), facts)
      invariant forall symbol | symbol in reports ::
                  IsReportOf(reports[symbol], ConsideredOf(accesses, symbol, facts), symbol, facts)
    {
      var symbol := symbols[i];
      assert symbols[..i + 1] == symbols[..i] + [symbol];
      assert symbol in symbols;
      ConsideredSymbol(accesses, symbol, facts);
      var report := CheckSymbol(bySymbol[symbol], symbol, facts);
      reports := reports[symbol := report];
    }
    assert symbols[..|symbols|] == symbols;
    forall symbol | symbol !in reports
      ensures !IsReported(multiset(ConsideredOf(accesses, symbol, facts)), facts)
    {
      NothingReported(facts);
    }
  }

  lemma NothingReported(facts: EntryFacts)
    ensures !IsReported(multiset([]), facts)
  {
    forall a: AccessFact, b: AccessFact
      ensures !(multiset{a, b} <= multiset([]))
    {
      assert a in multiset{a, b};
    }
  }

  // ----- the order of the accesses -----------------------------------------------------------------

  /** Whether a symbol gets a diagnostic is unchanged by permuting the accesses of the unit. */
  lemma ReportedWhateverTheOrder(accesses: seq<AccessFact>, permuted: seq<AccessFact>, symbol: string,
                                 facts: EntryFacts)
    requires multiset(accesses) == multiset(permuted)
    ensures IsReported(multiset(ConsideredOf(accesses, symbol, facts)), facts)
       <==> IsReported(multiset(ConsideredOf(permuted, symbol, facts)), facts)
  {
    hide IsReported, Considered;
    forall a
      ensures multiset(ConsideredOf(accesses, symbol, facts))[a] == multiset(ConsideredOf(permuted, symbol, facts))[a]
    {
      ConsideredMultiplicity(accesses, symbol, facts, a);
      ConsideredMultiplicity(permuted, symbol, facts, a);
    }
    assert multiset(ConsideredOf(accesses, symbol, facts)) == multiset(ConsideredOf(permuted, symbol, facts));
  }

  ghost predicate IsLocationOf(accesses: seq<AccessFact>, facts: EntryFacts, location: Location) {
    exists pair :: pair in Admitted(PairsOf(accesses), facts) && LocationOf(pair, facts) == location
  }

  ghost predicate RaceAt(accesses: multiset<AccessFact>, facts: EntryFacts, location: Location) {
    exists a, b :: multiset{a, b} <= accesses && Races(a, b, facts) && LocationOf(Pair(a, b), facts) == location
  }

  ghost predicate PreciseRaceAt(accesses: multiset<AccessFact>, facts: EntryFacts, location: Location) {
    exists a, b :: multiset{a, b} <= accesses && Races(a, b, facts) && LocationOf(Pair(a, b), facts) == location
                   && Pair(a, b).IsPrecise()
  }

  lemma LocationSymmetric(a: AccessFact, b: AccessFact, facts: EntryFacts)
    requires a.symbol == b.symbol
    ensures LocationOf(Pair(a, b), facts) == LocationOf(Pair(b, a), facts)
  {
  }

  /** The pair, in whichever order the scan compares it. */
  lemma Compared(accesses: seq<AccessFact>, symbol: string, facts: EntryFacts, a: AccessFact, b: AccessFact)
    returns (pair: Pair)
    requires OneSymbol(accesses, symbol) && multiset{a, b} <= multiset(accesses) && Races(a, b, facts)
    ensures pair in PairsOf(accesses) && Races(pair.lhs, pair.rhs, facts)
    ensures LocationOf(pair, facts) == LocationOf(Pair(a, b), facts) && pair.IsPrecise() == Pair(a, b).IsPrecise()
  {
    ComparedPairs(accesses, a, b);
    RacesSymmetric(a, b, facts);
    assert a in multiset{a, b} && b in multiset{a, b};
    assert a in multiset(accesses) && b in multiset(accesses);
    LocationSymmetric(a, b, facts);
    pair := if Pair(a, b) in PairsOf(accesses) then Pair(a, b) else Pair(b, a);
  }

  /** A location with a precise race is found in every order. */
  lemma PreciseLocationFound(accesses: seq<AccessFact>, symbol: string, facts: EntryFacts, location: Location)
    requires OneSymbol(accesses, symbol) && PreciseRaceAt(multiset(accesses), facts, location)
    ensures IsLocationOf(accesses, facts, location) && AnyPrecise(PairsOf(accesses), facts)
  {
    hide Races, LocationOf, Rows, Admitted;
    var a, b :| multiset{a, b} <= multiset(accesses) && Races(a, b, facts)
                && LocationOf(Pair(a, b), facts) == location && Pair(a, b).IsPrecise();
    var pair := Compared(accesses, symbol, facts, a, b);
    AdmittedAre(PairsOf(accesses), facts);
    assert pair in Admitted(PairsOf(accesses), facts);
  }

  lemma LocationIsARace(accesses: seq<AccessFact>, facts: EntryFacts, location: Location)
    requires IsLocationOf(accesses, facts, location)
    ensures RaceAt(multiset(accesses), facts, location)
  {
    hide Races, LocationOf, Rows, Admitted;
    var pair :| pair in Admitted(PairsOf(accesses), facts) && LocationOf(pair, facts) == location;
    AdmittedAre(PairsOf(accesses), facts);
    ComparedIsTwoOf(accesses, pair);
    assert pair == Pair(pair.lhs, pair.rhs);
  }

  lemma PreciseIsRace(accesses: seq<AccessFact>, facts: EntryFacts, pair: Pair)
    requires pair in PairsOf(accesses) && Races(pair.lhs, pair.rhs, facts) && pair.IsPrecise()
    ensures PreciseRaceAt(multiset(accesses), facts, LocationOf(pair, facts))
  {
    hide Races, LocationOf, Rows;
    ComparedIsTwoOf(accesses, pair);
    assert pair == Pair(pair.lhs, pair.rhs);
  }

  /** Without a precise race, every racing location is found in every order. */
  lemma ApproximateLocationFound(accesses: seq<AccessFact>, symbol: string, facts: EntryFacts, location: Location)
    requires OneSymbol(accesses, symbol) && RaceAt(multiset(accesses), facts, location)
    requires forall other :: !PreciseRaceAt(multiset(accesses), facts, other)
    ensures IsLocationOf(accesses, facts, location)
  {
    hide Races, LocationOf, Rows, Admitted, PreciseRaceAt;
    var a, b :| multiset{a, b} <= multiset(accesses) && Races(a, b, facts) && LocationOf(Pair(a, b), facts) == location;
    var pair := Compared(accesses, symbol, facts, a, b);
    AdmittedAre(PairsOf(accesses), facts);
    if AnyPrecise(PairsOf(accesses), facts) {
      var precise :| precise in PairsOf(accesses) && Races(precise.lhs, precise.rhs, facts) && precise.IsPrecise();
      PreciseIsRace(accesses, facts, precise);
      assert false;
    }
    assert pair in Admitted(PairsOf(accesses), facts);
  }

  lemma {:induction false} Listing(accesses: multiset<AccessFact>) returns (listed: seq<AccessFact>)
    ensures multiset(listed) == accesses
    decreases |accesses|
  {
    if accesses == multiset{} {
      listed := [];
    } else {
      var access :| access in accesses;
      listed := Listing(accesses - multiset{access});
      listed := listed + [access];
    }
  }

  /** An order that compares the two accesses first. */
  lemma ListingFrom(accesses: multiset<AccessFact>, a: AccessFact, b: AccessFact) returns (listed: seq<AccessFact>)
    requires multiset{a, b} <= accesses
    ensures multiset(listed) == accesses && |listed| >= 2 && listed[0] == a && listed[1] == b
  {
    var rest := Listing(accesses - multiset{a, b});
    listed := [a, b] + rest;
    assert multiset(listed) == multiset{a, b} + multiset(rest);
  }

  lemma {:induction false} FirstCompared(accesses: seq<AccessFact>, rows: nat)
    requires |accesses| >= 2 && 1 <= rows <= |accesses|
    ensures Rows(accesses, rows) != [] && Rows(accesses, rows)[0] == Pair(accesses[0], accesses[1])
  {
    if rows > 1 {
      FirstCompared(accesses, rows - 1);
    } else {
      assert Rows(accesses, 1) == Rows(accesses, 0) + Row(accesses, 0, |accesses|);
      assert Row(accesses, 0, |accesses|)[0] == Pair(accesses[0], accesses[1]);
    }
  }

  /** The first pair compared is admitted if it races; if it is precise, no approximate pair is. */
  lemma {:induction false} FirstDecides(scanned: seq<Pair>, facts: EntryFacts)
    requires scanned != [] && Races(scanned[0].lhs, scanned[0].rhs, facts)
    ensures scanned[0] in Admitted(scanned, facts)
    ensures scanned[0].IsPrecise() ==> forall pair | pair in Admitted(scanned, facts) :: pair.IsPrecise()
  {
    hide Races, Admitted, AnyPrecise, Pair.IsPrecise;
    var before, last := scanned[..|scanned| - 1], scanned[|scanned| - 1];
    assert scanned == before + [last];
    AdmittedMore(before, last, facts);
    if before == [] {
      NothingGrouped(facts);
    } else {
      FirstDecides(before, facts);
      FirstIsPrecise(before, facts);
    }
  }

  lemma FirstIsPrecise(scanned: seq<Pair>, facts: EntryFacts)
    requires scanned != [] && Races(scanned[0].lhs, scanned[0].rhs, facts)
    ensures scanned[0].IsPrecise() ==> AnyPrecise(scanned, facts)
  {
    hide Races;
    assert scanned[0] in scanned;
  }

  // ----- the locations of a report -----------------------------------------------------------------

  ghost predicate NoPreciseRace(accesses: multiset<AccessFact>, facts: EntryFacts) {
    forall location :: !PreciseRaceAt(accesses, facts, location)
  }

  ghost predicate SelfRaceAt(accesses: multiset<AccessFact>, facts: EntryFacts, location: Location) {
    exists a :: a in accesses && SelfRaces(a, facts) && LocationOf(Pair(a, a), facts) == location
  }

  ghost predicate PreciseSelfRaceAt(accesses: multiset<AccessFact>, facts: EntryFacts, location: Location) {
    exists a :: a in accesses && SelfRaces(a, facts) && LocationOf(Pair(a, a), facts) == location && a.IsPrecise()
  }

  /** A location one access names: an approximate one only when no two accesses race precisely. */
  ghost predicate CountedSelfRaceAt(accesses: multiset<AccessFact>, facts: EntryFacts, location: Location) {
    || PreciseSelfRaceAt(accesses, facts, location)
    || (NoPreciseRace(accesses, facts) && SelfRaceAt(accesses, facts, location))
  }

  /** The symbols met in a precise race, once all pairs are compared. */
  ghost function PreciseSymbols(accesses: seq<AccessFact>, symbol: string, facts: EntryFacts): set<string> {
    if AnyPrecise(PairsOf(accesses), facts) then {symbol} else {}
  }

  lemma AnyPreciseIff(accesses: seq<AccessFact>, symbol: string, facts: EntryFacts)
    requires OneSymbol(accesses, symbol)
    ensures AnyPrecise(PairsOf(accesses), facts) <==> !NoPreciseRace(multiset(accesses), facts)
  {
    hide Races, LocationOf, Rows, PreciseRaceAt;
    if AnyPrecise(PairsOf(accesses), facts) {
      var pair :| pair in PairsOf(accesses) && Races(pair.lhs, pair.rhs, facts) && pair.IsPrecise();
      PreciseIsRace(accesses, facts, pair);
    }
    if location :| PreciseRaceAt(multiset(accesses), facts, location) {
      PreciseLocationFound(accesses, symbol, facts, location);
    }
  }

  lemma CountedSelfRaces(accesses: seq<AccessFact>, symbol: string, facts: EntryFacts, location: Location)
    requires OneSymbol(accesses, symbol)
    ensures CountedSelfRaceAt(multiset(accesses), facts, location)
       <==> exists a :: a in accesses && Counts(a, PreciseSymbols(accesses, symbol, facts), facts)
                        && LocationOf(Pair(a, a), facts) == location
  {
    hide SelfRaces, LocationOf, AnyPrecise, PairsOf, NoPreciseRace;
    AnyPreciseIff(accesses, symbol, facts);
    assert forall a :: a in accesses <==> a in multiset(accesses);
  }

  lemma GroupedLocations(grouped: Conflicts, accesses: seq<AccessFact>, facts: EntryFacts, location: Location)
    requires IsGrouping(grouped, Admitted(PairsOf(accesses), facts), facts)
    ensures location in grouped <==> IsLocationOf(accesses, facts, location)
  {
    hide LocationOf, PairsOf, Admitted, CountAt;
    if location in grouped {
      assert StandsFor(grouped[location], Admitted(PairsOf(accesses), facts), location, facts);
    }
  }

  /** A location is reported exactly when an admitted pair or a counted access names it. */
  lemma ReportLocations(report: SymbolReport, accesses: seq<AccessFact>, symbol: string, facts: EntryFacts,
                        location: Location)
    requires OneSymbol(accesses, symbol) && IsReportOf(report, accesses, symbol, facts)
    ensures location in report.conflicts
       <==> IsLocationOf(accesses, facts, location) || CountedSelfRaceAt(multiset(accesses), facts, location)
  {
    hide LocationOf, IsGrouping, IsLocationOf, CountedSelfRaceAt, Counts, Total, AnyPrecise, Admitted, PairsOf;
    var precise := PreciseSymbols(accesses, symbol, facts);
    var grouped: Conflicts :| IsGrouping(grouped, Admitted(PairsOf(accesses), facts), facts)
      && AddsSelfRaces(grouped, report.conflicts, accesses, precise, facts);
    GroupedLocations(grouped, accesses, facts, location);
    CountedSelfRaces(accesses, symbol, facts, location);
    AddedLocations(grouped, report.conflicts, accesses, precise, facts, location);
  }

  lemma AddedLocations(grouped: Conflicts, more: Conflicts, accesses: seq<AccessFact>, precise: set<string>,
                       facts: EntryFacts, location: Location)
    requires AddsSelfRaces(grouped, more, accesses, precise, facts)
    ensures location in more
       <==> location in grouped || exists a :: a in accesses && Counts(a, precise, facts)
                                               && LocationOf(Pair(a, a), facts) == location
  {
    hide LocationOf, Counts;
    if location in more && location !in grouped {
      var at: nat :| at < |accesses| && FirstOfLocation(accesses, at, location, precise, facts);
      assert accesses[at] in accesses;
    }
  }

  lemma {:induction false} SomeGrouping(scanned: seq<Pair>, facts: EntryFacts) returns (grouped: Conflicts)
    ensures IsGrouping(grouped, Admitted(scanned, facts), facts) && Total(grouped) == |Admitted(scanned, facts)|
  {
    hide IsGrouping, Total, Admitted, AnyPrecise, LocationOf, Races, Counted;
    if scanned == [] {
      grouped := map[];
      NothingGrouped(facts);
    } else {
      var before, pair := scanned[..|scanned| - 1], scanned[|scanned| - 1];
      assert scanned == before + [pair];
      grouped := SomeGrouping(before, facts);
      AdmittedMore(before, pair, facts);
      assert Admitted(before, facts) + [] == Admitted(before, facts);
      if Admitted(scanned, facts) != Admitted(before, facts) {
        CountedIsGrouping(grouped, Admitted(before, facts), pair, facts);
        CountedTotal(grouped, pair, facts);
        grouped := grouped[LocationOf(pair, facts) := Counted(grouped, pair, facts)];
      }
    }
  }

  lemma {:induction false} SomeSelfRaces(accesses: seq<AccessFact>, facts: EntryFacts, grouped: Conflicts,
                                         precise: set<string>)
    returns (more: Conflicts)
    ensures AddsSelfRaces(grouped, more, accesses, precise, facts)
  {
    hide AddsSelfRaces, Counts, LocationOf;
    if accesses == [] {
      more := grouped;
      NothingAdded(grouped, precise, facts);
    } else {
      var before, access := accesses[..|accesses| - 1], accesses[|accesses| - 1];
      assert accesses == before + [access];
      more := SomeSelfRaces(before, facts, grouped, precise);
      if Counts(access, precise, facts) && LocationOf(Pair(access, access), facts) !in more {
        SelfRaceAdded(grouped, more, before, access, precise, facts);
        more := more[LocationOf(Pair(access, access), facts) :=
          LocationConflict(Pair(access, access), StandingOf(Pair(access, access)), 0)];
      } else {
        SelfRacePassed(grouped, more, before, access, precise, facts);
      }
    }
  }

  lemma {:induction false} SomeFirst(accesses: seq<AccessFact>, facts: EntryFacts) returns (found: ControlFlow.Option<nat>)
    ensures found.Some? ==> found.value < |accesses| && SelfConcurrentWrite(accesses[found.value], facts)
                            && forall k: nat | k < found.value :: !SelfConcurrentWrite(accesses[k], facts)
    ensures found.None? ==> forall access | access in accesses :: !SelfConcurrentWrite(access, facts)
  {
    hide SelfConcurrentWrite;
    found := ControlFlow.None;
    if accesses != [] {
      var last := |accesses| - 1;
      found := SomeFirst(accesses[..last], facts);
      if found.None? {
        assert forall k: nat | k < last :: accesses[k] in accesses[..last];
        found := if SelfConcurrentWrite(accesses[last], facts) then ControlFlow.Some(last) else ControlFlow.None;
      }
    }
  }

  /** Every listing of accesses has its report. */
  lemma SomeReport(accesses: seq<AccessFact>, symbol: string, facts: EntryFacts) returns (report: SymbolReport)
    ensures IsReportOf(report, accesses, symbol, facts)
  {
    hide IsGrouping, Total, AddsSelfRaces, AnyPrecise, Admitted, PairsOf, SelfConcurrentWrite;
    var grouped := SomeGrouping(PairsOf(accesses), facts);
    var more := SomeSelfRaces(accesses, facts, grouped, PreciseSymbols(accesses, symbol, facts));
    var found := SomeFirst(accesses, facts);
    report := SymbolReport(more, if more == map[] then found else ControlFlow.None);
  }

  /** The reports of any two orders of the accesses are on the same locations. */
  ghost predicate LocationsStable(accesses: multiset<AccessFact>, symbol: string, facts: EntryFacts) {
    forall s: seq<AccessFact>, t: seq<AccessFact>, one: SymbolReport, other: SymbolReport
      | multiset(s) == accesses && multiset(t) == accesses
        && IsReportOf(one, s, symbol, facts) && IsReportOf(other, t, symbol, facts) ::
      one.conflicts.Keys == other.conflicts.Keys
  }

  /** Every racing location is one that each order reports. */
  ghost predicate AllShown(accesses: multiset<AccessFact>, facts: EntryFacts) {
    || NoPreciseRace(accesses, facts)
    || forall location | RaceAt(accesses, facts, location) ::
         PreciseRaceAt(accesses, facts, location) || PreciseSelfRaceAt(accesses, facts, location)
  }

  lemma ShownAgain(s: seq<AccessFact>, t: seq<AccessFact>, symbol: string, facts: EntryFacts, location: Location)
    requires OneSymbol(t, symbol) && multiset(s) == multiset(t) && AllShown(multiset(s), facts)
    requires IsLocationOf(s, facts, location)
    ensures IsLocationOf(t, facts, location) || CountedSelfRaceAt(multiset(t), facts, location)
  {
    hide IsLocationOf, PreciseRaceAt, RaceAt, PreciseSelfRaceAt, SelfRaceAt;
    LocationIsARace(s, facts, location);
    if PreciseRaceAt(multiset(t), facts, location) {
      PreciseLocationFound(t, symbol, facts, location);
    } else if NoPreciseRace(multiset(t), facts) {
      ApproximateLocationFound(t, symbol, facts, location);
    }
  }

  lemma SymbolOfAll(accesses: seq<AccessFact>, symbol: string)
    requires forall access | access in multiset(accesses) :: access.symbol == symbol
    ensures OneSymbol(accesses, symbol)
  {
    assert forall access | access in accesses :: access in multiset(accesses);
  }

  lemma StableIfShown(accesses: multiset<AccessFact>, symbol: string, facts: EntryFacts)
    requires forall access | access in accesses :: access.symbol == symbol
    requires AllShown(accesses, facts)
    ensures LocationsStable(accesses, symbol, facts)
  {
    hide IsLocationOf, CountedSelfRaceAt, AllShown, IsReportOf, OneSymbol;
    forall s: seq<AccessFact>, t: seq<AccessFact>, one: SymbolReport, other: SymbolReport, location
      | multiset(s) == accesses && multiset(t) == accesses && IsReportOf(one, s, symbol, facts)
        && IsReportOf(other, t, symbol, facts)
      ensures location in one.conflicts ==> location in other.conflicts
    {
      SymbolOfAll(s, symbol);
      SymbolOfAll(t, symbol);
      ReportLocations(one, s, symbol, facts, location);
      ReportLocations(other, t, symbol, facts, location);
      if IsLocationOf(s, facts, location) {
        ShownAgain(s, t, symbol, facts, location);
      }
    }
  }

  /** Listed with the precise pair first, the accesses lose a location that only approximate pairs name. */
  lemma LostBehindPrecise(accesses: multiset<AccessFact>, facts: EntryFacts, location: Location, a: AccessFact,
                          b: AccessFact)
    returns (listed: seq<AccessFact>)
    requires !PreciseRaceAt(accesses, facts, location)
    requires multiset{a, b} <= accesses && Races(a, b, facts) && Pair(a, b).IsPrecise()
    ensures multiset(listed) == accesses && !IsLocationOf(listed, facts, location)
  {
    hide Races, LocationOf, Admitted, PreciseRaceAt;
    listed := ListingFrom(accesses, a, b);
    FirstCompared(listed, |listed|);
    FirstDecides(PairsOf(listed), facts);
    AdmittedAre(PairsOf(listed), facts);
    if IsLocationOf(listed, facts, location) {
      var pair :| pair in Admitted(PairsOf(listed), facts) && LocationOf(pair, facts) == location;
      PreciseIsRace(listed, facts, pair);
      assert false;
    }
  }

  lemma FoundWhenFirst(accesses: multiset<AccessFact>, facts: EntryFacts, a: AccessFact, b: AccessFact)
    returns (listed: seq<AccessFact>)
    requires multiset{a, b} <= accesses && Races(a, b, facts)
    ensures multiset(listed) == accesses && IsLocationOf(listed, facts, LocationOf(Pair(a, b), facts))
  {
    hide Races, LocationOf, Admitted;
    listed := ListingFrom(accesses, a, b);
    FirstCompared(listed, |listed|);
    FirstDecides(PairsOf(listed), facts);
  }

  /** Which locations are reported depends on the order of the accesses exactly when two of them race precisely and two
      race on a location that neither a precise pair nor a precise access racing with itself names. */
  lemma LocationsStableIff(accesses: multiset<AccessFact>, symbol: string, facts: EntryFacts)
    requires forall access | access in accesses :: access.symbol == symbol
    ensures LocationsStable(accesses, symbol, facts) <==> AllShown(accesses, facts)
  {
    hide Races, LocationOf, LocationsStable, PreciseSelfRaceAt;
    if AllShown(accesses, facts) {
      StableIfShown(accesses, symbol, facts);
    } else {
      var precise :| PreciseRaceAt(accesses, facts, precise);
      var location :| RaceAt(accesses, facts, location) && !PreciseRaceAt(accesses, facts, location)
                      && !PreciseSelfRaceAt(accesses, facts, location);
      var a, b :| multiset{a, b} <= accesses && Races(a, b, facts) && LocationOf(Pair(a, b), facts) == precise
                  && Pair(a, b).IsPrecise();
      var c, d :| multiset{c, d} <= accesses && Races(c, d, facts) && LocationOf(Pair(c, d), facts) == location;
      LostInOneOrder(accesses, symbol, facts, location, a, b, c, d);
    }
  }

  /** One order reports the location of the approximate race, another does not. */
  lemma LostInOneOrder(accesses: multiset<AccessFact>, symbol: string, facts: EntryFacts, location: Location,
                       a: AccessFact, b: AccessFact, c: AccessFact, d: AccessFact)
    requires forall access | access in accesses :: access.symbol == symbol
    requires multiset{a, b} <= accesses && Races(a, b, facts) && Pair(a, b).IsPrecise()
    requires multiset{c, d} <= accesses && Races(c, d, facts) && LocationOf(Pair(c, d), facts) == location
    requires !PreciseRaceAt(accesses, facts, location) && !PreciseSelfRaceAt(accesses, facts, location)
    ensures !LocationsStable(accesses, symbol, facts)
  {
    hide Races, IsLocationOf, PreciseRaceAt, PreciseSelfRaceAt, SelfRaceAt, IsReportOf, OneSymbol;
    var without := LostBehindPrecise(accesses, facts, location, a, b);
    var with := FoundWhenFirst(accesses, facts, c, d);
    SymbolOfAll(without, symbol);
    SymbolOfAll(with, symbol);
    var less := SomeReport(without, symbol, facts);
    var more := SomeReport(with, symbol, facts);
    ReportLocations(less, without, symbol, facts, location);
    ReportLocations(more, with, symbol, facts, location);
    assert !NoPreciseRace(accesses, facts) by {
      RaceIsAt(accesses, facts, a, b);
    }
    assert location in more.conflicts.Keys && location !in less.conflicts.Keys;
  }

  lemma RaceIsAt(accesses: multiset<AccessFact>, facts: EntryFacts, a: AccessFact, b: AccessFact)
    requires multiset{a, b} <= accesses && Races(a, b, facts) && Pair(a, b).IsPrecise()
    ensures PreciseRaceAt(accesses, facts, LocationOf(Pair(a, b), facts))
  {
  }

  function WriteBy(worker: bool, offset: int, coarse: bool): AccessFact {
    var nowhere := SourceLocation("", 0, 0, "");
    AccessFact("shared", Region(offset, 4), if worker then "worker" else "main", Write, Direct, nowhere, nowhere,
               false, coarse, false, !worker, if worker then {} else {"worker"}, false, "", {}, {}, {})
  }

  function OneWorker(): EntryFacts {
    EntryFacts(map[], map["worker" := {"worker"}], {})
  }

  lemma MainRacesWorker(offset: int, coarse: bool)
    ensures Races(WriteBy(false, offset, coarse), WriteBy(true, offset, false), OneWorker())
  {
    var main, worker := WriteBy(false, offset, coarse), WriteBy(true, offset, false);
    assert "worker" in OneWorker().EntriesOf(worker.functionId) && "worker" in main.Root().liveEntries;
    assert Parallel(main, worker, OneWorker());
    hide Parallel;
  }

  function TwoFields(): multiset<AccessFact> {
    multiset{WriteBy(false, 0, false), WriteBy(true, 0, false), WriteBy(false, 8, true), WriteBy(true, 8, false)}
  }

  lemma OnlyApproximateAt8(a: AccessFact, b: AccessFact)
    requires multiset{a, b} <= TwoFields() && Pair(a, b).IsPrecise()
    ensures LocationOf(Pair(a, b), OneWorker()).offset == At(0)
  {
    var d := WriteBy(true, 8, false);
    assert a in multiset{a, b} && b in multiset{a, b};
    assert a in TwoFields() && b in TwoFields();
    assert WriteBy(false, 0, false) != d && WriteBy(true, 0, false) != d && WriteBy(false, 8, true) != d;
    assert TwoFields()[d] == 1;
    assert multiset{a, b}[d] <= 1;
    assert multiset{d, d}[d] == 2;
  }

  lemma NoneRacesWithItself(worker: bool, offset: int, coarse: bool)
    ensures !SelfRaces(WriteBy(worker, offset, coarse), OneWorker())
  {
    LessTrichotomy("worker", "worker");
  }

  /** One worker, and four accesses: a precise race on one field, and on another an effect inferred for a call. Their
      order decides whether the second field is reported. */
  lemma OrderDecidesALocation()
    ensures !LocationsStable(TwoFields(), "shared", OneWorker())
  {
    var p, q, c, d := WriteBy(false, 0, false), WriteBy(true, 0, false), WriteBy(false, 8, true), WriteBy(true, 8, false);
    var location := LocationOf(Pair(c, d), OneWorker());
    assert location.offset == At(8) && Pair(p, q).IsPrecise();
    assert TwoFields() == multiset{p, q} + multiset{c, d};
    assert forall access | access in TwoFields() :: access.symbol == "shared";
    MainRacesWorker(0, false);
    MainRacesWorker(8, true);
    forall access | access in TwoFields()
      ensures !SelfRaces(access, OneWorker())
    {
      NoneRacesWithItself(false, 0, false);
      NoneRacesWithItself(true, 0, false);
      NoneRacesWithItself(false, 8, true);
      NoneRacesWithItself(true, 8, false);
    }
    hide Races, LocationOf, WriteBy, LocationsStable, SelfRaces, TwoFields;
    forall a, b | multiset{a, b} <= TwoFields() && Pair(a, b).IsPrecise()
      ensures LocationOf(Pair(a, b), OneWorker()) != location
    {
      OnlyApproximateAt8(a, b);
    }
    LostInOneOrder(TwoFields(), "shared", OneWorker(), location, p, q, c, d);
  }
}
