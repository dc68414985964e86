/** Threads at their accesses, and what the race report says about the states they stand in. */
module RaceMachine {
  import opened Facts
  import opened MemoryRegions
  import opened DataRaces
  import LockMachine

  /** A task about to make an access, which will touch these bytes of its object. */
  datatype Visit = Visit(access: AccessFact, bytes: set<int>)

  /** The tasks alive, the locks they own, and the accesses they stand at. */
  datatype State = State(tasks: map<nat, LockMachine.Task>, owner: map<string, nat>, at: map<nat, Visit>)

  /** The access describes the task that stands at it: the task reaches its function, owns its locks and touches bytes of
      its region. */
  ghost predicate Describes(s: State, t: nat, facts: EntryFacts)
    requires t in s.at
  {
    var access := s.at[t].access;
    && t in s.tasks
    && (match s.tasks[t]
        case RootTask => access.inRootTask
        case EntryTask(id) => id in ReachedBy(access, facts))
    && (forall lock | lock in access.heldLocks :: lock in s.owner && s.owner[lock] == t)
    && (forall byte | byte in s.at[t].bytes :: access.region.Covers(byte))
  }

  /** What the facts say of tasks alive together holds of the state. */
  ghost predicate Coherent(s: State, facts: EntryFacts) {
    && (forall t, u | t in s.tasks && u in s.tasks && t != u :: TasksMeet(s.tasks[t], s.tasks[u], facts))
    && (forall t | t in s.at :: Describes(s, t, facts))
    && (forall t, u | t in s.at && u in s.tasks && t in s.tasks && s.tasks[t].RootTask? && s.tasks[u].EntryTask? ::
          s.tasks[u].id in s.at[t].access.liveEntries)
  }

  /** One initial thread; entries that no join orders; an entry twice only when it is started more than once. */
  ghost predicate TasksMeet(a: LockMachine.Task, b: LockMachine.Task, facts: EntryFacts) {
    match (a, b)
    case (RootTask, RootTask) => false
    case (EntryTask(x), EntryTask(y)) => InstancesMeet(x, y, facts)
    case _ => true
  }

  /** Two tasks about to touch a common byte of one object, one of them writing and one of them plainly, with nothing but
      locks to keep them apart. */
  ghost predicate AboutToRace(s: State, t: nat, u: nat, byte: int) {
    && t != u && t in s.at && u in s.at && byte in s.at[t].bytes && byte in s.at[u].bytes
    && var a, b := s.at[t].access, s.at[u].access;
       && a.symbol == b.symbol && (a.kind == Write || b.kind == Write) && (!a.isAtomic || !b.isAtomic)
       && MixedIsExact(a, b) && !ToldApart(a, b)
       && (forall flag :: !(flag in a.beforeRelease && flag in b.afterAcquire))
       && (forall flag :: !(flag in b.beforeRelease && flag in a.afterAcquire))
  }

  lemma NoCommonLock(s: State, t: nat, u: nat, facts: EntryFacts)
    requires Coherent(s, facts) && t in s.at && u in s.at && t != u
    ensures forall lock :: !(lock in s.at[t].access.heldLocks && lock in s.at[u].access.heldLocks)
  {
    hide TasksMeet, ReachedBy, MemoryRegion.Covers;
    assert Describes(s, t, facts) && Describes(s, u, facts);
  }

  lemma TheyMeet(s: State, t: nat, u: nat, facts: EntryFacts)
    requires Coherent(s, facts) && t in s.at && u in s.at && t != u
    ensures MayMeet(s.at[t].access, s.at[u].access, facts)
  {
    hide InstancesMeet, ReachedBy, MemoryRegion.Covers;
    assert Describes(s, t, facts) && Describes(s, u, facts);
    assert TasksMeet(s.tasks[t], s.tasks[u], facts);
  }

  lemma TheyShare(s: State, t: nat, u: nat, byte: int, facts: EntryFacts)
    requires Coherent(s, facts) && AboutToRace(s, t, u, byte)
    ensures s.at[t].access.region.SharesByte(s.at[u].access.region)
  {
    hide TasksMeet, ReachedBy, MayMeet, InstancesMeet;
    assert Describes(s, t, facts) && Describes(s, u, facts);
    assert s.at[t].access.region.Covers(byte) && s.at[u].access.region.Covers(byte);
  }

  /** Two tasks about to race at two accesses: the accesses race. */
  lemma AccessesRace(s: State, t: nat, u: nat, byte: int, facts: EntryFacts)
    requires Coherent(s, facts) && AboutToRace(s, t, u, byte)
    ensures Races(s.at[t].access, s.at[u].access, facts)
  {
    hide Coherent, MixedIsExact, ToldApart, MayMeet, Races, MemoryRegion.SharesByte;
    RacesIff(s.at[t].access, s.at[u].access, facts);
    NoCommonLock(s, t, u, facts);
    TheyMeet(s, t, u, facts);
    TheyShare(s, t, u, byte, facts);
  }

  /** A spawn binds the access to the run of the thread it starts. */
  ghost predicate BoundTruly(s: State, t: nat, u: nat)
    requires t in s.at && u in s.at
  {
    s.at[t].access.boundBySpawn ==> t in s.tasks && u in s.tasks && s.tasks[t] == s.tasks[u]
  }

  /** Two tasks about to race at one access: it races with itself, or another instance. */
  lemma AccessRacesWithItself(s: State, t: nat, u: nat, byte: int, facts: EntryFacts)
    requires Coherent(s, facts) && AboutToRace(s, t, u, byte) && s.at[t].access == s.at[u].access && BoundTruly(s, t, u)
    ensures SelfRaces(s.at[t].access, facts) || SelfConcurrentWrite(s.at[t].access, facts)
  {
    hide Races, SelfRaces, SelfConcurrentWrite, ReachedBy, InstancesMeet;
    var access := s.at[t].access;
    SelfRacesIff(access, facts);
    SelfConcurrentIff(access, facts);
    NoCommonLock(s, t, u, facts);
    assert access.heldLocks == {};
    assert Describes(s, t, facts) && Describes(s, u, facts);
    assert TasksMeet(s.tasks[t], s.tasks[u], facts);
  }

  /** The access is looked at: some task stands at it. */
  lemma VisitedIsConsidered(s: State, t: nat, facts: EntryFacts)
    requires Coherent(s, facts) && t in s.at
    ensures Considered(s.at[t].access, s.at[t].access.symbol, facts)
  {
    hide TasksMeet, MemoryRegion.Covers;
    assert Describes(s, t, facts);
  }

  lemma ConsideredPair(accesses: seq<AccessFact>, facts: EntryFacts, a: AccessFact, b: AccessFact)
    requires multiset{a, b} <= multiset(accesses) && a.symbol == b.symbol
    requires Considered(a, a.symbol, facts) && Considered(b, a.symbol, facts)
    ensures multiset{a, b} <= multiset(ConsideredOf(accesses, a.symbol, facts))
  {
    hide Considered;
    ConsideredMultiplicity(accesses, a.symbol, facts, a);
    ConsideredMultiplicity(accesses, a.symbol, facts, b);
    assert multiset{a, b}[a] <= multiset(accesses)[a] && multiset{a, b}[b] <= multiset(accesses)[b];
  }

  lemma ConsideredOne(accesses: seq<AccessFact>, facts: EntryFacts, a: AccessFact)
    requires a in accesses && Considered(a, a.symbol, facts)
    ensures a in multiset(ConsideredOf(accesses, a.symbol, facts))
  {
    hide Considered;
    ConsideredMultiplicity(accesses, a.symbol, facts, a);
    assert a in multiset(accesses);
  }

  /** The two tasks stand at two of the accesses recorded, or both at one. */
  ghost predicate Recorded(s: State, t: nat, u: nat, accesses: seq<AccessFact>)
    requires t in s.at && u in s.at
  {
    || multiset{s.at[t].access, s.at[u].access} <= multiset(accesses)
    || (s.at[t].access == s.at[u].access && s.at[t].access in accesses && BoundTruly(s, t, u))
  }

  lemma RaceIsReported(s: State, t: nat, u: nat, byte: int, accesses: seq<AccessFact>, facts: EntryFacts)
    requires Coherent(s, facts) && AboutToRace(s, t, u, byte) && Recorded(s, t, u, accesses)
    ensures IsReported(multiset(ConsideredOf(accesses, s.at[t].access.symbol, facts)), facts)
  {
    hide Coherent, Races, SelfRaces, SelfConcurrentWrite, Considered, MixedIsExact, ToldApart;
    var a, b := s.at[t].access, s.at[u].access;
    VisitedIsConsidered(s, t, facts);
    VisitedIsConsidered(s, u, facts);
    if multiset{a, b} <= multiset(accesses) {
      AccessesRace(s, t, u, byte, facts);
      ConsideredPair(accesses, facts, a, b);
    } else {
      AccessRacesWithItself(s, t, u, byte, facts);
      ConsideredOne(accesses, facts, a);
    }
  }

  /** What the checker reports: the symbols its considered accesses call for. */
  ghost predicate Reports(reports: map<string, SymbolReport>, accesses: seq<AccessFact>, facts: EntryFacts) {
    forall symbol :: (symbol in reports && !reports[symbol].IsEmpty())
                <==> IsReported(multiset(ConsideredOf(accesses, symbol, facts)), facts)
  }

  /** Race soundness: in every state coherent with the facts in which two tasks are about to race, the symbol they race
      on has a diagnostic. */
  lemma RaceReported(s: State, t: nat, u: nat, byte: int, accesses: seq<AccessFact>, facts: EntryFacts,
                     reports: map<string, SymbolReport>)
    requires Coherent(s, facts) && AboutToRace(s, t, u, byte) && Recorded(s, t, u, accesses)
    requires Reports(reports, accesses, facts)
    ensures s.at[t].access.symbol in reports && !reports[s.at[t].access.symbol].IsEmpty()
  {
    hide Coherent, MixedIsExact, ToldApart, IsReported, Recorded;
    RaceIsReported(s, t, u, byte, accesses, facts);
    var symbol := s.at[t].access.symbol;
    assert (symbol in reports && !reports[symbol].IsEmpty())
      <==> IsReported(multiset(ConsideredOf(accesses, symbol, facts)), facts);
  }
}
