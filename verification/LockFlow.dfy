/** The locks certainly held on entry to each block: what the two forward analyses of a function iterate to. */
module LockFlow {
  import opened ControlFlow
  import opened LockEffects

  type LockSet = set<string>
  type States = seq<Option<LockSet>>

  /** One analysis: the function, what its calls do, and the locks held on entry. */
  datatype Flow = Flow(f: Function, effects: FunctionLockEffects, initial: LockSet)

  // ----- the locks held along one path -------------------------------------------------------------

  /** The locks held before instruction `i` of a block entered with `locks`. */
  function HeldAt(w: Flow, block: nat, i: nat, locks: LockSet): LockSet {
    if i == 0 then locks else ChangeAt(w.effects, Point(block, i - 1)).Apply(HeldAt(w, block, i - 1, locks))
  }

  function HeldPast(w: Flow, block: nat, locks: LockSet): LockSet
    requires block < |w.f.blocks|
  {
    HeldAt(w, block, w.f.blocks[block].size, locks)
  }

  /** A path of blocks from the entry. */
  ghost predicate IsBlockPath(f: Function, path: seq<nat>) {
    && path != [] && path[0] == 0
    && (forall i | 0 <= i < |path| :: path[i] < |f.blocks|)
    && (forall i | 0 < i < |path| :: path[i] in f.blocks[path[i - 1]].successors)
  }

  ghost predicate PathTo(f: Function, path: seq<nat>, block: nat) {
    IsBlockPath(f, path) && path[|path| - 1] == block
  }

  ghost predicate Reachable(f: Function, block: nat) {
    exists path :: PathTo(f, path, block)
  }

  /** The locks held on entering the last block of a path. */
  ghost function HeldAlong(w: Flow, path: seq<nat>): LockSet
    requires IsBlockPath(w.f, path)
  {
    if |path| == 1 then w.initial
    else HeldPast(w, path[|path| - 2], HeldAlong(w, path[..|path| - 1]))
  }

  lemma {:induction false} HeldAtByLock(w: Flow, block: nat, i: nat, a: LockSet, b: LockSet, lock: string)
    requires lock in a <==> lock in b
    ensures lock in HeldAt(w, block, i, a) <==> lock in HeldAt(w, block, i, b)
  {
    if i > 0 {
      HeldAtByLock(w, block, i - 1, a, b, lock);
      ApplyByLock(ChangeAt(w.effects, Point(block, i - 1)), HeldAt(w, block, i - 1, a), HeldAt(w, block, i - 1, b), lock);
    }
  }

  lemma {:induction false} HeldAtMonotone(w: Flow, block: nat, i: nat, a: LockSet, b: LockSet)
    requires a <= b
    ensures HeldAt(w, block, i, a) <= HeldAt(w, block, i, b)
  {
    if i > 0 {
      HeldAtMonotone(w, block, i - 1, a, b);
      ApplyMonotone(ChangeAt(w.effects, Point(block, i - 1)), HeldAt(w, block, i - 1, a), HeldAt(w, block, i - 1, b));
    }
  }

  lemma PathExtends(f: Function, path: seq<nat>, block: nat, next: nat)
    requires f.Valid() && PathTo(f, path, block) && block < |f.blocks| && next in f.blocks[block].successors
    ensures PathTo(f, path + [next], next)
  {
    var k :| 0 <= k < |f.blocks[block].successors| && f.blocks[block].successors[k] == next;
    assert f.blocks[block].successors[k] < |f.blocks|;
  }

  lemma HeldAlongExtended(w: Flow, path: seq<nat>, block: nat, next: nat)
    requires w.f.Valid() && PathTo(w.f, path, block) && block < |w.f.blocks| && next in w.f.blocks[block].successors
    ensures PathTo(w.f, path + [next], next)
    ensures HeldAlong(w, path + [next]) == HeldPast(w, block, HeldAlong(w, path))
  {
    PathExtends(w.f, path, block, next);
    assert (path + [next])[..|path|] == path;
  }

  // ----- what holds of every state the iteration goes through ------------------------------------------

  /** Some path reaches the block with all of `locks` held together. */
  ghost predicate HeldTogether(w: Flow, block: nat, locks: LockSet) {
    exists path :: PathTo(w.f, path, block) && locks <= HeldAlong(w, path)
  }

  /** Some path reaches the block without `lock`. */
  ghost predicate MayLack(w: Flow, block: nat, lock: string) {
    exists path :: PathTo(w.f, path, block) && lock !in HeldAlong(w, path)
  }

  /** `locks` is held together on some path, and any other lock is missing on one. */
  ghost predicate Witnessed(w: Flow, block: nat, locks: LockSet) {
    HeldTogether(w, block, locks) && forall lock :: lock in locks || MayLack(w, block, lock)
  }

  /** The instructions of a block carry both facts across it. */
  lemma WitnessedPast(w: Flow, block: nat, locks: LockSet, next: nat)
    requires w.f.Valid() && block < |w.f.blocks| && next in w.f.blocks[block].successors && Witnessed(w, block, locks)
    ensures Witnessed(w, next, HeldPast(w, block, locks))
  {
    var out := HeldPast(w, block, locks);
    var path :| PathTo(w.f, path, block) && locks <= HeldAlong(w, path);
    HeldAlongExtended(w, path, block, next);
    HeldAtMonotone(w, block, w.f.blocks[block].size, locks, HeldAlong(w, path));
    forall lock
      ensures lock in out || MayLack(w, next, lock)
    {
      if lock !in out {
        LackPast(w, block, locks, next, lock);
      }
    }
  }

  lemma LackPast(w: Flow, block: nat, locks: LockSet, next: nat, lock: string)
    requires w.f.Valid() && block < |w.f.blocks| && next in w.f.blocks[block].successors && Witnessed(w, block, locks)
    requires lock !in HeldPast(w, block, locks)
    ensures MayLack(w, next, lock)
  {
    var size := w.f.blocks[block].size;
    if lock in locks {
      var path :| PathTo(w.f, path, block) && locks <= HeldAlong(w, path);
      HeldAlongExtended(w, path, block, next);
      HeldAtByLock(w, block, size, locks, HeldAlong(w, path), lock);
    } else {
      assert MayLack(w, block, lock);
      var path :| PathTo(w.f, path, block) && lock !in HeldAlong(w, path);
      HeldAlongExtended(w, path, block, next);
      HeldAtByLock(w, block, size, locks, HeldAlong(w, path), lock);
    }
  }

  lemma WitnessedEntry(w: Flow)
    requires w.f.Valid()
    ensures Witnessed(w, 0, w.initial)
  {
    assert PathTo(w.f, [0], 0) && HeldAlong(w, [0]) == w.initial;
  }

  // ----- the meet over the predecessors ------------------------------------------------------------

  /** A predecessor of the block with a state past it. */
  ghost predicate Contributes(f: Function, out: States, p: nat, block: nat) {
    p < |f.blocks| && p < |out| && block in f.blocks[p].successors && out[p].Some?
  }

  /** `locks` is the intersection of the states past the predecessors that have one; none when none has. */
  ghost predicate IsMeet(f: Function, out: States, block: nat, locks: Option<LockSet>) {
    match locks
    case None => forall p: nat :: !Contributes(f, out, p, block)
    case Some(s) =>
      && (exists p: nat :: Contributes(f, out, p, block))
      && (forall lock :: lock in s <==> forall p: nat | Contributes(f, out, p, block) :: lock in out[p].value)
  }

  /** Among the first `i` reachable blocks. */
  ghost predicate IsMeetUpTo(f: Function, out: States, block: nat, reachable: seq<nat>, i: nat, locks: Option<LockSet>)
    requires i <= |reachable|
  {
    match locks
    case None => forall k: nat | k < i :: !Contributes(f, out, reachable[k], block)
    case Some(s) =>
      && (exists k: nat | k < i :: Contributes(f, out, reachable[k], block))
      && (forall lock :: lock in s <==>
            forall k: nat | k < i && Contributes(f, out, reachable[k], block) :: lock in out[reachable[k]].value)
  }

  lemma MeetOfAll(f: Function, out: States, block: nat, reachable: seq<nat>, locks: Option<LockSet>)
    requires IsMeetUpTo(f, out, block, reachable, |reachable|, locks)
    requires forall p: nat | p < |out| && out[p].Some? :: p in reachable
    ensures IsMeet(f, out, block, locks)
  {
    forall p: nat | Contributes(f, out, p, block)
      ensures exists k: nat | k < |reachable| :: reachable[k] == p
    {
      assert p in reachable;
    }
    if locks.Some? {
      var k: nat :| k < |reachable| && Contributes(f, out, reachable[k], block);
      forall lock
        ensures lock in locks.value <==> forall p: nat | Contributes(f, out, p, block) :: lock in out[p].value
      {
        if lock in locks.value {
          forall p: nat | Contributes(f, out, p, block)
            ensures lock in out[p].value
          {
            var k: nat :| k < |reachable| && reachable[k] == p;
          }
        }
      }
    }
  }

  method MeetPredecessorStates(f: Function, reachable: seq<nat>, block: nat,
                               out: States) returns (locks: Option<LockSet>)
    requires |out| == |f.blocks|
    requires forall p: nat | p < |out| && out[p].Some? :: p in reachable
    requires forall k | 0 <= k < |reachable| :: reachable[k] < |f.blocks|
    ensures IsMeet(f, out, block, locks)
  {
    locks := None;
    for i := 0 to |reachable|
      invariant IsMeetUpTo(f, out, block, reachable, i, locks)
    {
      var p := reachable[i];
      if block in f.blocks[p].successors && out[p].Some? {
        assert Contributes(f, out, reachable[i], block);
        locks := if locks.None? then out[p] else Some(locks.value * out[p].value);
      }
    }
    MeetOfAll(f, out, block, reachable, locks);
  }

  // ----- the iteration -----------------------------------------------------------------------------

  /** A state past a block is what the block makes of the state before it. */
  ghost predicate Consistent(w: Flow, ins: States, outs: States) {
    && |ins| == |outs| == |w.f.blocks| && ins != [] && ins[0] == Some(w.initial)
    && (forall b: nat | b < |outs| && outs[b].Some? ::
          ins[b].Some? && outs[b].value == HeldPast(w, b, ins[b].value))
  }

  ghost predicate AllWitnessed(w: Flow, ins: States) {
    forall b: nat | b < |ins| && ins[b].Some? :: Witnessed(w, b, ins[b].value)
  }

  /** The predecessors now allow no lock on entry to the block that `locks` has not. */
  ghost predicate MeetsBelow(f: Function, outs: States, block: nat, locks: LockSet) {
    && (exists p: nat :: Contributes(f, outs, p, block))
    && (forall lock | lock !in locks :: exists p: nat :: Contributes(f, outs, p, block) && lock !in outs[p].value)
  }

  ghost predicate Descending(w: Flow, ins: States, outs: States) {
    forall b: nat {:trigger MeetsBelow(w.f, outs, b, ins[b].value)} | 0 < b < |ins| && ins[b].Some? ::
      MeetsBelow(w.f, outs, b, ins[b].value)
  }

  ghost predicate Inv(w: Flow, ins: States, outs: States) {
    w.f.Valid() && Consistent(w, ins, outs) && AllWitnessed(w, ins) && Descending(w, ins, outs)
  }

  /** What is looked up on entry to a block: the entry keeps its locks, any other meets its predecessors. */
  ghost predicate IsEntryState(w: Flow, ins: States, outs: States, block: nat, locks: Option<LockSet>) {
    if block == 0 then locks == Some(w.initial) else IsMeet(w.f, outs, block, locks)
  }

  lemma ContributorWitnessed(w: Flow, ins: States, outs: States, p: nat, block: nat)
    requires Inv(w, ins, outs) && Contributes(w.f, outs, p, block)
    ensures Witnessed(w, block, outs[p].value)
  {
    hide Witnessed, Descending;
    WitnessedPast(w, p, ins[p].value, block);
  }

  lemma MeetWitnessed(w: Flow, ins: States, outs: States, block: nat, locks: LockSet)
    requires Inv(w, ins, outs) && IsMeet(w.f, outs, block, Some(locks))
    ensures Witnessed(w, block, locks)
  {
    hide HeldTogether, MayLack, Inv;
    var p: nat :| Contributes(w.f, outs, p, block);
    ContributorWitnessed(w, ins, outs, p, block);
    FewerHeldTogether(w, block, locks, outs[p].value);
    forall lock
      ensures lock in locks || MayLack(w, block, lock)
    {
      if lock !in locks {
        var q: nat :| Contributes(w.f, outs, q, block) && lock !in outs[q].value;
        ContributorWitnessed(w, ins, outs, q, block);
      }
    }
  }

  lemma FewerHeldTogether(w: Flow, block: nat, locks: LockSet, more: LockSet)
    requires locks <= more && HeldTogether(w, block, more)
    ensures HeldTogether(w, block, locks)
  {
    var path :| PathTo(w.f, path, block) && more <= HeldAlong(w, path);
    assert locks <= HeldAlong(w, path);
  }

  lemma EntryStateWitnessed(w: Flow, ins: States, outs: States, block: nat, locks: LockSet)
    requires Inv(w, ins, outs) && IsEntryState(w, ins, outs, block, Some(locks))
    ensures Witnessed(w, block, locks)
  {
    hide Inv, Witnessed, IsMeet;
    if block == 0 {
      assert w.f.Valid() by { InvValid(w, ins, outs); }
      WitnessedEntry(w);
    } else {
      MeetWitnessed(w, ins, outs, block, locks);
    }
  }

  lemma InvValid(w: Flow, ins: States, outs: States)
    requires Inv(w, ins, outs)
    ensures w.f.Valid() && |ins| == |outs| == |w.f.blocks| && ins[0] == Some(w.initial)
  {
  }

  /** A block looked at again has at most the locks it had. */
  lemma EntryStateShrinks(w: Flow, ins: States, outs: States, block: nat, locks: Option<LockSet>)
    requires Inv(w, ins, outs) && block < |ins| && ins[block].Some? && IsEntryState(w, ins, outs, block, locks)
    ensures locks.Some? && locks.value <= ins[block].value
  {
    hide AllWitnessed;
    if block != 0 {
      assert MeetsBelow(w.f, outs, block, ins[block].value);
      forall lock | locks.Some? && lock in locks.value
        ensures lock in ins[block].value
      {
      }
    }
  }

  ghost predicate Shrinks(before: States, after: States) {
    |before| == |after|
    && forall b: nat | b < |before| && before[b].Some? :: after[b].Some? && after[b].value <= before[b].value
  }

  lemma MeetsBelowKept(f: Function, outs: States, after: States, block: nat, locks: LockSet)
    requires MeetsBelow(f, outs, block, locks) && Shrinks(outs, after)
    ensures MeetsBelow(f, after, block, locks)
  {
    var p: nat :| Contributes(f, outs, p, block);
    assert Contributes(f, after, p, block);
    forall lock | lock !in locks
      ensures exists p: nat :: Contributes(f, after, p, block) && lock !in after[p].value
    {
      var q: nat :| Contributes(f, outs, q, block) && lock !in outs[q].value;
      assert Contributes(f, after, q, block) && lock !in after[q].value;
    }
  }

  lemma MeetIsBelow(f: Function, outs: States, block: nat, locks: LockSet)
    requires IsMeet(f, outs, block, Some(locks))
    ensures MeetsBelow(f, outs, block, locks)
  {
  }

  /** Entering a block with the state looked up, and leaving it with what its instructions make of it, keeps it all. */
  lemma StepKeeps(w: Flow, ins: States, outs: States, block: nat, locks: LockSet)
    requires Inv(w, ins, outs) && block < |ins| && IsEntryState(w, ins, outs, block, Some(locks))
    ensures Inv(w, ins[block := Some(locks)], outs[block := Some(HeldPast(w, block, locks))])
  {
    var ins', outs' := ins[block := Some(locks)], outs[block := Some(HeldPast(w, block, locks))];
    StepShrinks(w, ins, outs, block, locks);
    StepWitnesses(w, ins, outs, block, locks);
    assert Descending(w, ins', outs') by {
      hide AllWitnessed, Consistent, IsMeet, MeetsBelow, Shrinks;
      forall b: nat | 0 < b < |ins'| && ins'[b].Some?
        ensures MeetsBelow(w.f, outs', b, ins'[b].value)
      {
        if b == block {
          MeetIsBelow(w.f, outs, block, locks);
        } else {
          assert MeetsBelow(w.f, outs, b, ins[b].value);
        }
        MeetsBelowKept(w.f, outs, outs', b, ins'[b].value);
      }
    }
  }

  lemma StepShrinks(w: Flow, ins: States, outs: States, block: nat, locks: LockSet)
    requires Inv(w, ins, outs) && block < |ins| && IsEntryState(w, ins, outs, block, Some(locks))
    ensures Shrinks(outs, outs[block := Some(HeldPast(w, block, locks))])
  {
    hide AllWitnessed, Descending, IsMeet;
    if outs[block].Some? {
      EntryStateShrinks(w, ins, outs, block, Some(locks));
      HeldAtMonotone(w, block, w.f.blocks[block].size, locks, ins[block].value);
    }
  }

  lemma StepWitnesses(w: Flow, ins: States, outs: States, block: nat, locks: LockSet)
    requires Inv(w, ins, outs) && block < |ins| && IsEntryState(w, ins, outs, block, Some(locks))
    ensures AllWitnessed(w, ins[block := Some(locks)])
    ensures Consistent(w, ins[block := Some(locks)], outs[block := Some(HeldPast(w, block, locks))])
  {
    hide Witnessed, Descending, IsMeet;
    EntryStateWitnessed(w, ins, outs, block, locks);
  }

  // ----- it ends -----------------------------------------------------------------------------------

  function Unknowns(ins: States): nat {
    if ins == [] then 0 else Unknowns(ins[1..]) + (if ins[0].None? then 1 else 0)
  }

  function Total(ins: States): nat {
    if ins == [] then 0 else Total(ins[1..]) + (if ins[0].Some? then |ins[0].value| else 0)
  }

  lemma {:induction false} MeasureFalls(ins: States, b: nat, locks: LockSet)
    requires b < |ins| && ins[b] != Some(locks) && (ins[b].Some? ==> locks <= ins[b].value)
    ensures Unknowns(ins[b := Some(locks)]) <= Unknowns(ins)
    ensures Unknowns(ins[b := Some(locks)]) == Unknowns(ins) ==> Total(ins[b := Some(locks)]) < Total(ins)
  {
    var after := ins[b := Some(locks)];
    if b == 0 {
      assert after[1..] == ins[1..];
      if ins[0].Some? {
        SmallerSet(locks, ins[0].value);
      }
    } else {
      assert after[1..] == ins[1..][b - 1 := Some(locks)];
      MeasureFalls(ins[1..], b - 1, locks);
    }
  }

  /** The states know more, or fewer locks. */
  ghost predicate Falls(ins: States, outs: States, ins': States, outs': States) {
    var u, u' := Unknowns(ins) + Unknowns(outs), Unknowns(ins') + Unknowns(outs');
    u' < u || (u' == u && Total(ins') + Total(outs') < Total(ins) + Total(outs))
  }

  lemma StepFalls(w: Flow, ins: States, outs: States, block: nat, locks: LockSet)
    requires Inv(w, ins, outs) && block < |ins| && IsEntryState(w, ins, outs, block, Some(locks))
    ensures var ins', outs' := ins[block := Some(locks)], outs[block := Some(HeldPast(w, block, locks))];
            (ins' == ins && outs' == outs) || Falls(ins, outs, ins', outs')
  {
    hide AllWitnessed, Descending, Consistent, IsEntryState, HeldPast, Unknowns, Total;
    InvValid(w, ins, outs);
    var past := HeldPast(w, block, locks);
    StepShrinks(w, ins, outs, block, locks);
    assert outs[block := Some(past)][block] == Some(past);
    if ins[block].Some? {
      EntryStateShrinks(w, ins, outs, block, Some(locks));
    }
    if ins[block] != Some(locks) {
      MeasureFalls(ins, block, locks);
    } else {
      assert ins[block := Some(locks)] == ins;
    }
    assert outs[block].Some? ==> past <= outs[block].value;
    if outs[block] != Some(past) {
      MeasureFalls(outs, block, past);
    } else {
      assert outs[block := Some(past)] == outs;
    }
  }

  lemma SmallerSet(a: LockSet, b: LockSet)
    requires a <= b && a != b
    ensures |a| < |b|
  {
    var rest := b - a;
    assert b == a + rest && a !! rest;
    assert rest != {};
  }

  // ----- what it ends at ---------------------------------------------------------------------------

  /** The block's state is the one looked up now, and the state past it is up to date. */
  ghost predicate Stable(w: Flow, ins: States, outs: States, block: nat)
    requires |ins| == |outs|
  {
    && block < |ins| && IsEntryState(w, ins, outs, block, ins[block])
    && (ins[block].Some? ==> outs[block].Some?)
  }

  ghost predicate AllStable(w: Flow, ins: States, outs: States) {
    |ins| == |outs| && forall b: nat | b < |w.f.blocks| && Reachable(w.f, b) :: Stable(w, ins, outs, b)
  }

  lemma PrefixPath(f: Function, path: seq<nat>)
    requires IsBlockPath(f, path) && |path| > 1
    ensures PathTo(f, path[..|path| - 1], path[|path| - 2])
    ensures path[|path| - 1] in f.blocks[path[|path| - 2]].successors && path[|path| - 2] < |f.blocks|
  {
  }

  /** At the end, every path to a block holds at least the locks of its state. */
  lemma {:induction false} StableBelow(w: Flow, ins: States, outs: States, path: seq<nat>)
    requires Inv(w, ins, outs) && AllStable(w, ins, outs) && IsBlockPath(w.f, path)
    ensures path[|path| - 1] < |ins| && ins[path[|path| - 1]].Some?
    ensures ins[path[|path| - 1]].value <= HeldAlong(w, path)
    decreases |path|
  {
    hide Inv, Stable, Reachable, PathTo;
    var b := path[|path| - 1];
    ReachableBy(w.f, path);
    InvValid(w, ins, outs);
    if |path| > 1 {
      PrefixPath(w.f, path);
      var before, p := path[..|path| - 1], path[|path| - 2];
      StableBelow(w, ins, outs, before);
      ReachableBy(w.f, before);
      StableAcross(w, ins, outs, p, b);
      HeldAtMonotone(w, p, w.f.blocks[p].size, ins[p].value, HeldAlong(w, before));
    }
  }

  lemma StableAcross(w: Flow, ins: States, outs: States, p: nat, b: nat)
    requires Inv(w, ins, outs) && Stable(w, ins, outs, p) && Stable(w, ins, outs, b) && ins[p].Some?
    requires p < |w.f.blocks| && b in w.f.blocks[p].successors
    ensures ins[b].Some? && ins[b].value <= HeldPast(w, p, ins[p].value)
  {
    hide AllWitnessed, Descending;
    assert Contributes(w.f, outs, p, b);
  }

  lemma ReachableBy(f: Function, path: seq<nat>)
    requires IsBlockPath(f, path)
    ensures Reachable(f, path[|path| - 1]) && path[|path| - 1] < |f.blocks|
  {
    assert PathTo(f, path, path[|path| - 1]);
  }

  /** A lock is held before an instruction on every path that reaches it. */
  ghost predicate HeldOnEveryPath(w: Flow, p: Point, lock: string) {
    forall path | PathTo(w.f, path, p.block) :: lock in HeldAt(w, p.block, p.index, HeldAlong(w, path))
  }

  lemma LackAt(w: Flow, p: Point, locks: LockSet, lock: string)
    requires Witnessed(w, p.block, locks) && lock !in HeldAt(w, p.block, p.index, locks)
    ensures !HeldOnEveryPath(w, p, lock)
  {
    if lock in locks {
      var path :| PathTo(w.f, path, p.block) && locks <= HeldAlong(w, path);
      HeldAtByLock(w, p.block, p.index, locks, HeldAlong(w, path), lock);
    } else {
      assert MayLack(w, p.block, lock);
      var path :| PathTo(w.f, path, p.block) && lock !in HeldAlong(w, path);
      HeldAtByLock(w, p.block, p.index, locks, HeldAlong(w, path), lock);
    }
  }

  /** The state of a block gives exactly the locks held on every path, at each of its instructions. */
  lemma StableIsExact(w: Flow, ins: States, outs: States, p: Point, lock: string)
    requires Inv(w, ins, outs) && AllStable(w, ins, outs) && p.block < |w.f.blocks| && Reachable(w.f, p.block)
    ensures p.block < |ins| && ins[p.block].Some?
    ensures lock in HeldAt(w, p.block, p.index, ins[p.block].value) <==> HeldOnEveryPath(w, p, lock)
  {
    hide Descending, AllStable, Witnessed;
    var some :| PathTo(w.f, some, p.block);
    StableBelow(w, ins, outs, some);
    var locks := ins[p.block].value;
    if lock in HeldAt(w, p.block, p.index, locks) {
      forall path | PathTo(w.f, path, p.block)
        ensures lock in HeldAt(w, p.block, p.index, HeldAlong(w, path))
      {
        StableBelow(w, ins, outs, path);
        HeldAtMonotone(w, p.block, p.index, locks, HeldAlong(w, path));
      }
    } else {
      LackAt(w, p, locks, lock);
    }
  }

  // ----- held, said of what a path does ------------------------------------------------------------

  /** Some effect of the instruction takes the lock. */
  ghost predicate TakesLock(w: Flow, p: Point, lock: string) {
    Taken(EffectsAt(w.effects, p), lock)
  }

  /** Some effect of the instruction drops the lock, by name or through a guard. */
  ghost predicate DropsLock(w: Flow, p: Point, lock: string) {
    Dropped(EffectsAt(w.effects, p), w.effects.guardBindings, lock)
  }

  /** From `from` on, what drops the lock takes it again. */
  ghost predicate KeptFrom(w: Flow, history: seq<Point>, from: nat, lock: string) {
    forall i: nat | from <= i < |history| && DropsLock(w, history[i], lock) :: TakesLock(w, history[i], lock)
  }

  ghost predicate TakenAndKept(w: Flow, history: seq<Point>, i: nat, lock: string) {
    i < |history| && TakesLock(w, history[i], lock) && KeptFrom(w, history, i + 1, lock)
  }

  /** After the instructions of `history` the lock is held: it was taken and kept since, or held at first and kept. */
  ghost predicate HeldAfter(w: Flow, history: seq<Point>, lock: string) {
    (lock in w.initial && KeptFrom(w, history, 0, lock)) || exists i: nat :: TakenAndKept(w, history, i, lock)
  }

  /** The first `n` instructions of a block. */
  ghost function Instructions(block: nat, n: nat): seq<Point> {
    seq(n, i requires 0 <= i < n => Point(block, i))
  }

  /** The instructions of the blocks a path leaves. */
  ghost function Left(f: Function, path: seq<nat>): seq<Point>
    requires IsBlockPath(f, path)
  {
    if |path| == 1 then []
    else Left(f, path[..|path| - 1]) + Instructions(path[|path| - 2], f.blocks[path[|path| - 2]].size)
  }

  /** The instructions a path runs before `p`, in its last block. */
  ghost function RunBefore(f: Function, path: seq<nat>, p: Point): seq<Point>
    requires IsBlockPath(f, path)
  {
    Left(f, path) + Instructions(p.block, p.index)
  }

  lemma ApplyMeans(w: Flow, p: Point, locks: LockSet, lock: string)
    ensures lock in ChangeAt(w.effects, p).Apply(locks)
       <==> TakesLock(w, p, lock) || (lock in locks && !DropsLock(w, p, lock))
  {
    ChangeOfIsChange(EffectsAt(w.effects, p), w.effects.guardBindings);
    assert ChangeAt(w.effects, p) == ChangeOf(EffectsAt(w.effects, p), w.effects.guardBindings);
    hide Taken, Dropped, ChangeOf, ChangeAt, EffectsAt;
    var change := ChangeAt(w.effects, p);
    assert lock in change.acquired <==> Taken(EffectsAt(w.effects, p), lock);
    assert lock in change.released <==> Dropped(EffectsAt(w.effects, p), w.effects.guardBindings, lock);
  }

  lemma HeldAfterMore(w: Flow, history: seq<Point>, p: Point, lock: string)
    ensures HeldAfter(w, history + [p], lock)
       <==> TakesLock(w, p, lock) || (HeldAfter(w, history, lock) && !DropsLock(w, p, lock))
  {
    hide TakesLock, DropsLock;
    var more, last := history + [p], |history|;
    assert more[last] == p && forall i: nat | i < last :: more[i] == history[i];
    forall from: nat | from <= last
      ensures KeptFrom(w, more, from, lock)
         <==> KeptFrom(w, history, from, lock) && (DropsLock(w, p, lock) ==> TakesLock(w, p, lock))
    {
      if KeptFrom(w, more, from, lock) {
        assert forall i: nat | from <= i < last && DropsLock(w, history[i], lock) :: DropsLock(w, more[i], lock);
      }
    }
    forall i: nat | i < last
      ensures TakenAndKept(w, more, i, lock)
         <==> TakenAndKept(w, history, i, lock) && (DropsLock(w, p, lock) ==> TakesLock(w, p, lock))
    {
    }
    assert TakenAndKept(w, more, last, lock) <==> TakesLock(w, p, lock);
    assert TakesLock(w, p, lock) ==> HeldAfter(w, more, lock);
    assert forall i: nat :: TakenAndKept(w, more, i, lock) ==> i <= last;
    assert forall i: nat :: TakenAndKept(w, history, i, lock) ==> i < last;
  }

  lemma {:induction false} HeldInBlock(w: Flow, history: seq<Point>, block: nat, n: nat, locks: LockSet, lock: string)
    requires lock in locks <==> HeldAfter(w, history, lock)
    ensures lock in HeldAt(w, block, n, locks) <==> HeldAfter(w, history + Instructions(block, n), lock)
  {
    hide HeldAfter, TakesLock, DropsLock, ChangeAt;
    if n == 0 {
      assert history + Instructions(block, 0) == history;
    } else {
      HeldInBlock(w, history, block, n - 1, locks, lock);
      var before, p := history + Instructions(block, n - 1), Point(block, n - 1);
      assert history + Instructions(block, n) == before + [p];
      HeldAfterMore(w, before, p, lock);
      ApplyMeans(w, p, HeldAt(w, block, n - 1, locks), lock);
    }
  }

  lemma {:induction false} HeldAlongMeans(w: Flow, path: seq<nat>, lock: string)
    requires IsBlockPath(w.f, path)
    ensures lock in HeldAlong(w, path) <==> HeldAfter(w, Left(w.f, path), lock)
    decreases |path|
  {
    if |path| == 1 {
      NothingRun(w, lock);
    } else {
      hide HeldAfter, HeldAt;
      HeldAlongMeans(w, path[..|path| - 1], lock);
      HeldInBlock(w, Left(w.f, path[..|path| - 1]), path[|path| - 2], w.f.blocks[path[|path| - 2]].size,
                  HeldAlong(w, path[..|path| - 1]), lock);
    }
  }

  lemma NothingRun(w: Flow, lock: string)
    ensures HeldAfter(w, [], lock) <==> lock in w.initial
  {
  }

  /** The locks the analysis computes along a path are those its instructions leave held. */
  lemma HeldAtMeans(w: Flow, path: seq<nat>, p: Point, lock: string)
    requires PathTo(w.f, path, p.block)
    ensures lock in HeldAt(w, p.block, p.index, HeldAlong(w, path)) <==> HeldAfter(w, RunBefore(w.f, path, p), lock)
  {
    hide HeldAfter, HeldAt, HeldAlong, Left;
    HeldAlongMeans(w, path, lock);
    HeldInBlock(w, Left(w.f, path), p.block, p.index, HeldAlong(w, path), lock);
  }

  /** Whatever path brings the function to `p`, the lock is held before it. */
  ghost predicate CertainlyHeld(w: Flow, p: Point, lock: string) {
    forall path | PathTo(w.f, path, p.block) :: HeldAfter(w, RunBefore(w.f, path, p), lock)
  }

  lemma CertainlyHeldMeans(w: Flow, p: Point, lock: string)
    ensures HeldOnEveryPath(w, p, lock) <==> CertainlyHeld(w, p, lock)
  {
    hide HeldAfter, HeldAt, HeldAlong, RunBefore;
    forall path | PathTo(w.f, path, p.block)
      ensures lock in HeldAt(w, p.block, p.index, HeldAlong(w, path)) <==> HeldAfter(w, RunBefore(w.f, path, p), lock)
    {
      HeldAtMeans(w, path, p, lock);
    }
  }
}
