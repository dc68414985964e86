/** The locks certainly held on entry to each function, passed from callers to callees. */
module LockStatePropagator {
  import opened LockIds
  import MemoryRegions

  type LockSet = set<string>
  type EntryLocks = map<string, LockSet>

  datatype CallSite = CallSite(call: nat, caller: string, callee: string)

  /** The direct calls, and the locks each caller itself holds at each call. */
  datatype Calls = Calls(sites: seq<CallSite>, localHeld: map<nat, LockSet>) {
    function Local(i: nat): LockSet
      requires i < |sites|
    {
      if sites[i].call in localHeld then localHeld[sites[i].call] else {}
    }

    predicate Enters(i: nat, callee: string) {
      i < |sites| && sites[i].callee == callee
    }

    predicate IsCalled(name: string) {
      exists i: nat | i < |sites| :: Enters(i, name)
    }
  }

  function EntryOf(entry: EntryLocks, name: string): LockSet {
    if name in entry then entry[name] else {}
  }

  predicate NamesParameter(lock: string) {
    ParameterLockPlace(lock).Place?
  }

  /** The locks a caller holds, as the callee may assume them: its parameters mean nothing there. */
  function LocksForCallee(locks: LockSet): LockSet {
    set lock | lock in locks && !NamesParameter(lock)
  }

  function EffectiveAt(c: Calls, entry: EntryLocks, i: nat): LockSet
    requires i < |c.sites|
  {
    LocksForCallee(c.Local(i) + EntryOf(entry, c.sites[i].caller))
  }

  ghost predicate AtEveryCall(c: Calls, entry: EntryLocks, callee: string, lock: string) {
    forall i: nat {:trigger c.Enters(i, callee)} | c.Enters(i, callee) :: lock in EffectiveAt(c, entry, i)
  }

  /** `locks` is what every call of `callee` lets it assume. */
  ghost predicate IsMerged(c: Calls, entry: EntryLocks, callee: string, locks: LockSet) {
    forall lock :: lock in locks <==> AtEveryCall(c, entry, callee, lock)
  }

  /** Every called function assumes exactly what its calls let it, any other assumes nothing. */
  ghost predicate IsSolution(c: Calls, entry: EntryLocks) {
    && (forall name | c.IsCalled(name) :: IsMerged(c, entry, name, EntryOf(entry, name)))
    && (forall name | !c.IsCalled(name) :: EntryOf(entry, name) == {})
  }

  ghost predicate Below(a: EntryLocks, b: EntryLocks) {
    forall name :: EntryOf(a, name) <= EntryOf(b, name)
  }

  lemma AtEveryCallMonotone(c: Calls, a: EntryLocks, b: EntryLocks, callee: string, lock: string)
    requires Below(a, b) && AtEveryCall(c, a, callee, lock)
    ensures AtEveryCall(c, b, callee, lock)
  {
  }

  // ----- what the locks mean -------------------------------------------------------------------------

  /** Following any calls back from `name`, at most `depth` of them, meets one whose caller itself holds `lock`. */
  ghost predicate GuardedWithin(c: Calls, depth: nat, name: string, lock: string) {
    && depth > 0 && c.IsCalled(name) && !NamesParameter(lock)
    && forall i: nat {:trigger c.Enters(i, name)} | c.Enters(i, name) ::
         lock in c.Local(i) || GuardedWithin(c, depth - 1, c.sites[i].caller, lock)
  }

  ghost predicate Guarded(c: Calls, name: string, lock: string) {
    exists depth: nat :: GuardedWithin(c, depth, name, lock)
  }

  lemma {:induction false} GuardedDeeper(c: Calls, depth: nat, more: nat, name: string, lock: string)
    requires depth <= more && GuardedWithin(c, depth, name, lock)
    ensures GuardedWithin(c, more, name, lock)
    decreases depth
  {
    forall i: nat | c.Enters(i, name) && lock !in c.Local(i)
      ensures GuardedWithin(c, more - 1, c.sites[i].caller, lock)
    {
      GuardedDeeper(c, depth - 1, more - 1, c.sites[i].caller, lock);
    }
  }

  /** The depth that serves the first `n` calls serves them all at once. */
  lemma {:induction false} CommonDepth(c: Calls, name: string, lock: string, n: nat) returns (depth: nat)
    requires n <= |c.sites|
    requires forall i: nat | i < n && c.Enters(i, name) && lock !in c.Local(i) :: Guarded(c, c.sites[i].caller, lock)
    ensures forall i: nat | i < n && c.Enters(i, name) && lock !in c.Local(i) ::
              GuardedWithin(c, depth, c.sites[i].caller, lock)
  {
    hide GuardedWithin;
    if n == 0 {
      return 0;
    }
    depth := CommonDepth(c, name, lock, n - 1);
    if c.Enters(n - 1, name) && lock !in c.Local(n - 1) {
      var last: nat :| GuardedWithin(c, last, c.sites[n - 1].caller, lock);
      var deeper := if last < depth then depth else last;
      forall i: nat | i < n && c.Enters(i, name) && lock !in c.Local(i)
        ensures GuardedWithin(c, deeper, c.sites[i].caller, lock)
      {
        GuardedDeeper(c, if i == n - 1 then last else depth, deeper, c.sites[i].caller, lock);
      }
      depth := deeper;
    }
  }

  lemma GuardedByCalls(c: Calls, name: string, lock: string)
    requires c.IsCalled(name) && !NamesParameter(lock)
    requires forall i: nat | c.Enters(i, name) && lock !in c.Local(i) :: Guarded(c, c.sites[i].caller, lock)
    ensures Guarded(c, name, lock)
  {
    var depth := CommonDepth(c, name, lock, |c.sites|);
    assert GuardedWithin(c, depth + 1, name, lock);
  }

  /** Whatever solves the equations assumes every guarded lock. */
  lemma {:induction false} GuardedInSolution(c: Calls, entry: EntryLocks, depth: nat, name: string, lock: string)
    requires IsSolution(c, entry) && GuardedWithin(c, depth, name, lock)
    ensures lock in EntryOf(entry, name)
    decreases depth
  {
    forall i: nat | c.Enters(i, name)
      ensures lock in EffectiveAt(c, entry, i)
    {
      if lock !in c.Local(i) {
        GuardedInSolution(c, entry, depth - 1, c.sites[i].caller, lock);
      }
    }
    assert AtEveryCall(c, entry, name, lock);
  }

  // ----- the iteration ---------------------------------------------------------------------------------

  /** Every lock assumed is guarded, and still allowed by the calls. */
  ghost predicate Sound(c: Calls, entry: EntryLocks) {
    && (forall name, lock | lock in EntryOf(entry, name) :: Guarded(c, name, lock))
    && (forall name, lock | lock in EntryOf(entry, name) :: AtEveryCall(c, entry, name, lock))
    && (forall name | !c.IsCalled(name) :: EntryOf(entry, name) == {})
  }

  lemma MergedIsGuarded(c: Calls, entry: EntryLocks, name: string, lock: string)
    requires Sound(c, entry) && c.IsCalled(name) && AtEveryCall(c, entry, name, lock)
    ensures Guarded(c, name, lock)
  {
    hide Guarded;
    var some: nat :| some < |c.sites| && c.Enters(some, name);
    assert lock in EffectiveAt(c, entry, some);
    forall i: nat | c.Enters(i, name) && lock !in c.Local(i)
      ensures Guarded(c, c.sites[i].caller, lock)
    {
      assert lock in EffectiveAt(c, entry, i);
    }
    GuardedByCalls(c, name, lock);
  }

  lemma UpdateKeepsSound(c: Calls, entry: EntryLocks, name: string, locks: LockSet)
    requires Sound(c, entry) && c.IsCalled(name) && IsMerged(c, entry, name, locks)
    ensures Sound(c, entry[name := locks]) && Below(entry, entry[name := locks])
  {
    hide Guarded, AtEveryCall;
    var after := entry[name := locks];
    assert Below(entry, after);
    forall other, lock | lock in EntryOf(after, other)
      ensures Guarded(c, other, lock) && AtEveryCall(c, after, other, lock)
    {
      assert AtEveryCall(c, entry, other, lock);
      AtEveryCallMonotone(c, entry, after, other, lock);
      if other == name {
        MergedIsGuarded(c, entry, name, lock);
      }
    }
  }

  /** The locks some caller holds: no entry ever assumes another. */
  ghost function AllLocal(c: Calls): LockSet {
    set i, lock | 0 <= i < |c.sites| && lock in c.Local(i) :: lock
  }

  lemma {:induction false} GuardedIsLocal(c: Calls, depth: nat, name: string, lock: string)
    requires GuardedWithin(c, depth, name, lock)
    ensures lock in AllLocal(c)
    decreases depth
  {
    var i: nat :| i < |c.sites| && c.Enters(i, name);
    if lock !in c.Local(i) {
      GuardedIsLocal(c, depth - 1, c.sites[i].caller, lock);
    }
  }

  ghost function Callees(c: Calls): set<string> {
    set i | 0 <= i < |c.sites| :: c.sites[i].callee
  }

  /** The locks entries do not assume yet, which every change makes fewer. */
  ghost function Missing(c: Calls, entry: EntryLocks): set<(string, string)> {
    set name, lock | name in Callees(c) && lock in AllLocal(c) && lock !in EntryOf(entry, name) :: (name, lock)
  }

  lemma UpdateMissesFewer(c: Calls, entry: EntryLocks, name: string, locks: LockSet)
    requires Sound(c, entry) && c.IsCalled(name) && IsMerged(c, entry, name, locks) && locks != EntryOf(entry, name)
    ensures Missing(c, entry[name := locks]) < Missing(c, entry)
  {
    hide AtEveryCall, AllLocal;
    var after := entry[name := locks];
    forall lock | lock in EntryOf(entry, name)
      ensures lock in locks
    {
      assert AtEveryCall(c, entry, name, lock);
    }
    var added :| added in locks && added !in EntryOf(entry, name);
    MergedIsGuarded(c, entry, name, added);
    var depth: nat :| GuardedWithin(c, depth, name, added);
    GuardedIsLocal(c, depth, name, added);
    var i: nat :| i < |c.sites| && c.Enters(i, name);
    assert c.sites[i].callee in Callees(c);
    assert (name, added) in Missing(c, entry) && (name, added) !in Missing(c, after);
    assert forall other :: EntryOf(entry, other) <= EntryOf(after, other);
  }

  /** What every call of `callee` lets it assume, call after call. */
  method MergeCalls(c: Calls, entry: EntryLocks, callee: string) returns (merged: LockSet)
    requires c.IsCalled(callee)
    ensures IsMerged(c, entry, callee, merged)
  {
    var hasIncomingState := false;
    merged := {};
    for i := 0 to |c.sites|
      invariant hasIncomingState <==> exists k: nat | k < i :: c.Enters(k, callee)
      invariant hasIncomingState ==> forall lock :: lock in merged <==>
                  forall k: nat | k < i && c.Enters(k, callee) :: lock in EffectiveAt(c, entry, k)
    {
      if c.sites[i].callee == callee {
        assert c.Enters(i, callee);
        var effective := EffectiveAt(c, entry, i);
        merged := if hasIncomingState then merged * effective else effective;
        hasIncomingState := true;
      }
    }
  }

  /** The locks held on entry to each function, whatever the order in which the callees are looked at. */
  method Collect(c: Calls, functions: set<string>) returns (entry: EntryLocks)
    ensures IsSolution(c, entry)
    ensures forall other | IsSolution(c, other) :: Below(entry, other)
    ensures EntersExactly(c, entry)
  {
    hide Guarded, GuardedWithin, AtEveryCall, Missing, EntersExactly;
    entry := map name | name in functions :: {};
    var changed := true;
    var callees := set i | 0 <= i < |c.sites| :: c.sites[i].callee;
    forall name
      ensures name in callees <==> c.IsCalled(name)
    {
      if name in callees {
        var i: nat :| i < |c.sites| && c.sites[i].callee == name;
        assert c.Enters(i, name);
      }
    }
    while changed
      invariant Sound(c, entry)
      invariant !changed ==> forall name | name in callees :: IsMerged(c, entry, name, EntryOf(entry, name))
      decreases Missing(c, entry), changed
    {
      entry, changed := Pass(c, entry, callees);
    }
    LeastOf(c, entry);
    GuardedEnters(c, entry);
  }

  method Pass(c: Calls, given: EntryLocks, callees: set<string>) returns (entry: EntryLocks, changed: bool)
    requires Sound(c, given) && forall name | name in callees :: c.IsCalled(name)
    ensures Sound(c, entry)
    ensures if changed then Missing(c, entry) < Missing(c, given) else entry == given
    ensures !changed ==> forall name | name in callees :: IsMerged(c, entry, name, EntryOf(entry, name))
  {
    hide Sound, IsMerged, Missing;
    entry, changed := given, false;
    var remaining := callees;
    while remaining != {}
      invariant remaining <= callees && Sound(c, entry)
      invariant if changed then Missing(c, entry) < Missing(c, given) else entry == given
      invariant !changed ==> forall name | name in callees - remaining :: IsMerged(c, entry, name, EntryOf(entry, name))
    {
      var callee :| callee in remaining;
      remaining := remaining - {callee};
      var merged := MergeCalls(c, entry, callee);
      if EntryOf(entry, callee) != merged {
        UpdateKeepsSound(c, entry, callee, merged);
        UpdateMissesFewer(c, entry, callee, merged);
        entry := entry[callee := merged];
        changed := true;
      }
    }
  }

  lemma LeastOf(c: Calls, entry: EntryLocks)
    requires Sound(c, entry) && forall name | c.IsCalled(name) :: IsMerged(c, entry, name, EntryOf(entry, name))
    ensures IsSolution(c, entry)
    ensures forall other | IsSolution(c, other) :: Below(entry, other)
    ensures forall name, lock :: lock in EntryOf(entry, name) <==> Guarded(c, name, lock)
  {
    hide AtEveryCall, GuardedWithin;
    assert IsSolution(c, entry);
    forall name, lock | Guarded(c, name, lock)
      ensures lock in EntryOf(entry, name)
    {
      var depth: nat :| GuardedWithin(c, depth, name, lock);
      GuardedInSolution(c, entry, depth, name, lock);
    }
    forall other, name, lock | IsSolution(c, other) && lock in EntryOf(entry, name)
      ensures lock in EntryOf(other, name)
    {
      var depth: nat :| GuardedWithin(c, depth, name, lock);
      GuardedInSolution(c, other, depth, name, lock);
    }
  }

  // ----- the same, said of the call sites --------------------------------------------------------------

  /** The caller itself holds the lock at the call. */
  ghost predicate HeldAtSite(c: Calls, i: nat, lock: string) {
    i < |c.sites| && c.sites[i].call in c.localHeld && lock in c.localHeld[c.sites[i].call]
  }

  /** The function is called; the lock is not named after a parameter; and following its calls back, at most `depth` of
      them, always meets one at which the caller itself holds it. */
  ghost predicate HeldBack(c: Calls, depth: nat, name: string, lock: string) {
    && depth > 0 && (exists i: nat | i < |c.sites| :: c.sites[i].callee == name)
    && !ParameterLockPlace(lock).Place?
    && forall i: nat | i < |c.sites| && c.sites[i].callee == name ::
         HeldAtSite(c, i, lock) || HeldBack(c, depth - 1, c.sites[i].caller, lock)
  }

  lemma {:induction false} HeldBackIff(c: Calls, depth: nat, name: string, lock: string)
    ensures HeldBack(c, depth, name, lock) <==> GuardedWithin(c, depth, name, lock)
  {
    assert forall i: nat :: c.Enters(i, name) <==> i < |c.sites| && c.sites[i].callee == name;
    if depth > 0 {
      forall i: nat | i < |c.sites|
        ensures HeldBack(c, depth - 1, c.sites[i].caller, lock) <==> GuardedWithin(c, depth - 1, c.sites[i].caller, lock)
      {
        HeldBackIff(c, depth - 1, c.sites[i].caller, lock);
      }
      assert forall i: nat | i < |c.sites| :: lock in c.Local(i) <==> HeldAtSite(c, i, lock);
    }
  }

  /** A lock enters a function exactly when every way back through its calls meets a caller that holds it. */
  ghost predicate EntersExactly(c: Calls, entry: EntryLocks) {
    forall name, lock :: lock in EntryOf(entry, name) <==> exists depth: nat :: HeldBack(c, depth, name, lock)
  }

  lemma GuardedEnters(c: Calls, entry: EntryLocks)
    requires forall name, lock :: lock in EntryOf(entry, name) <==> Guarded(c, name, lock)
    ensures EntersExactly(c, entry)
  {
    hide HeldBack, GuardedWithin;
    forall depth: nat, name, lock
      ensures HeldBack(c, depth, name, lock) <==> GuardedWithin(c, depth, name, lock)
    {
      HeldBackIff(c, depth, name, lock);
    }
  }

  /** No lock a caller names after one of its parameters enters a callee. */
  lemma ParameterLocksStay(c: Calls, entry: EntryLocks, name: string, owner: RootBinding, place: MemoryRegions.MemoryRegion)
    requires EntersExactly(c, entry) && owner.root.Argument? && owner.root.index < UINT32_RANGE && FitsInt64(owner, place)
    ensures LockIdAt(owner, place) !in EntryOf(entry, name)
  {
    hide LockIdAt, ParameterLockPlace, HeldBack;
    ParameterRoundTrip(owner, place);
    var lock := LockIdAt(owner, place);
    assert ParameterLockPlace(lock).Place? by { ReadsAsParameter(lock, owner); }
    forall depth: nat
      ensures !HeldBack(c, depth, name, lock)
    {
      BackNamesNoParameter(c, depth, name, lock);
    }
  }

  lemma ReadsAsParameter(lock: string, owner: RootBinding)
    requires owner.root.Argument? && LockIdRoot(lock).Some? && LockIdRoot(lock).value.root == owner.root
    ensures ParameterLockPlace(lock).Place?
  {
    hide ParameterLockPlace;
  }

  lemma BackNamesNoParameter(c: Calls, depth: nat, name: string, lock: string)
    requires ParameterLockPlace(lock).Place?
    ensures !HeldBack(c, depth, name, lock)
  {
  }

  // ----- along every chain of calls --------------------------------------------------------------------

  /** Calls each made by the function the one before entered, the first by a function nobody calls. */
  ghost predicate IsChain(c: Calls, chain: seq<nat>) {
    && chain != [] && (forall k | 0 <= k < |chain| :: chain[k] < |c.sites|)
    && !c.IsCalled(c.sites[chain[0]].caller)
    && forall k | 0 < k < |chain| :: c.sites[chain[k]].caller == c.sites[chain[k - 1]].callee
  }

  /** A lock a callee assumes is held by the caller of each of its calls, itself or on its own entry. */
  lemma AssumedAtCall(c: Calls, entry: EntryLocks, site: nat, lock: string)
    requires IsSolution(c, entry) && site < |c.sites| && lock in EntryOf(entry, c.sites[site].callee)
    ensures !NamesParameter(lock) && (lock in c.Local(site) || lock in EntryOf(entry, c.sites[site].caller))
    ensures !c.IsCalled(c.sites[site].caller) ==> lock in c.Local(site)
  {
    hide NamesParameter, Calls.Local;
    assert c.Enters(site, c.sites[site].callee);
    assert IsMerged(c, entry, c.sites[site].callee, EntryOf(entry, c.sites[site].callee));
    assert AtEveryCall(c, entry, c.sites[site].callee, lock) && lock in EffectiveAt(c, entry, site);
  }

  /** Each lock assumed by the function at the end of a chain is held by a caller along it, and names no parameter. */
  lemma {:induction false} HeldAlongChain(c: Calls, entry: EntryLocks, chain: seq<nat>, lock: string)
    requires IsSolution(c, entry) && IsChain(c, chain)
    requires lock in EntryOf(entry, c.sites[chain[|chain| - 1]].callee)
    ensures !ParameterLockPlace(lock).Place? && exists k | 0 <= k < |chain| :: HeldAtSite(c, chain[k], lock)
    decreases |chain|
  {
    hide IsSolution, ParameterLockPlace;
    var last := chain[|chain| - 1];
    AssumedAtCall(c, entry, last, lock);
    assert lock in c.Local(last) <==> HeldAtSite(c, last, lock);
    hide Calls.Local, HeldAtSite;
    if !HeldAtSite(c, last, lock) && |chain| > 1 {
      var before := chain[..|chain| - 1];
      HeldAlongChain(c, entry, before, lock);
      var k :| 0 <= k < |before| && HeldAtSite(c, before[k], lock);
      assert chain[k] == before[k];
    }
  }
}
