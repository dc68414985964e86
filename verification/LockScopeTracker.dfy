/** The locks held around the accesses of a function. */
module LockScopeTracker {
  import opened ControlFlow
  import opened LockEffects
  import opened LockFlow

  type HeldLocks = map<Point, LockSet>

  /** The tracked instructions of the block are recorded with the locks held before them. */
  ghost predicate Recorded(w: Flow, tracked: set<Point>, block: nat, locks: LockSet, held: HeldLocks)
    requires block < |w.f.blocks|
  {
    forall i: nat | i < w.f.blocks[block].size && Point(block, i) in tracked ::
      Point(block, i) in held && held[Point(block, i)] == HeldAt(w, block, i, locks)
  }

  ghost predicate OnlyTracked(w: Flow, tracked: set<Point>, held: HeldLocks) {
    forall p | p in held :: p in tracked && w.f.Contains(p) && Reachable(w.f, p.block)
  }

  /** Nothing recorded of other blocks changes. */
  ghost predicate SameElsewhere(block: nat, before: HeldLocks, after: HeldLocks) {
    forall p: Point | p.block != block :: (p in before <==> p in after) && (p in before ==> before[p] == after[p])
  }

  /** Runs the instructions of a block entered with `locks`, recording what is held before the tracked ones. */
  method WalkBlock(w: Flow, tracked: set<Point>, block: nat, locks: LockSet, given: HeldLocks)
    returns (current: LockSet, held: HeldLocks)
    requires block < |w.f.blocks| && Reachable(w.f, block) && OnlyTracked(w, tracked, given)
    ensures current == HeldPast(w, block, locks)
    ensures Recorded(w, tracked, block, locks, held) && OnlyTracked(w, tracked, held) && SameElsewhere(block, given, held)
  {
    hide Reachable;
    current, held := locks, given;
    for i := 0 to w.f.blocks[block].size
      invariant current == HeldAt(w, block, i, locks)
      invariant OnlyTracked(w, tracked, held) && SameElsewhere(block, given, held)
      invariant forall k: nat | k < i && Point(block, k) in tracked ::
                  Point(block, k) in held && held[Point(block, k)] == HeldAt(w, block, k, locks)
    {
      if Point(block, i) in tracked {
        held := held[Point(block, i) := current];
      }
      var change := LockStateChangeFor(Point(block, i), w.effects);
      current := change.Apply(current);
    }
  }

  ghost predicate ReachableBlocks(f: Function, reachable: seq<nat>) {
    forall b: nat :: b in reachable <==> b < |f.blocks| && Reachable(f, b)
  }

  /** The state looked up on entry to a block. */
  method EntryState(w: Flow, reachable: seq<nat>, block: nat, ins: States,
                    outs: States) returns (locks: Option<LockSet>)
    requires Inv(w, ins, outs) && ReachableBlocks(w.f, reachable) && block < |ins|
    ensures IsEntryState(w, ins, outs, block, locks)
  {
    hide Witnessed, Reachable, Descending;
    if block == 0 {
      return ins[0];
    }
    forall p: nat | p < |outs| && outs[p].Some?
      ensures p in reachable
    {
      WitnessedReachable(w, p, ins[p].value);
    }
    forall k | 0 <= k < |reachable|
      ensures reachable[k] < |w.f.blocks|
    {
      assert reachable[k] in reachable;
    }
    locks := MeetPredecessorStates(w.f, reachable, block, outs);
  }

  lemma WitnessedReachable(w: Flow, block: nat, locks: LockSet)
    requires Witnessed(w, block, locks)
    ensures Reachable(w.f, block)
  {
  }

  /** What one visit leaves: the block is up to date and its tracked instructions are recorded. */
  ghost predicate UpToDate(w: Flow, tracked: set<Point>, block: nat, ins: States, outs: States, held: HeldLocks) {
    && |ins| == |outs| && block < |w.f.blocks| && Stable(w, ins, outs, block)
    && (ins[block].Some? ==> Recorded(w, tracked, block, ins[block].value, held))
  }

  /** Looks at one block, as each pass does in turn. */
  method VisitBlock(w: Flow, reachable: seq<nat>, tracked: set<Point>, block: nat, ins: States, outs: States,
                    given: HeldLocks)
    returns (ins': States, outs': States, held: HeldLocks, changed: bool)
    requires Inv(w, ins, outs) && ReachableBlocks(w.f, reachable) && OnlyTracked(w, tracked, given)
    requires block in reachable
    ensures Inv(w, ins', outs') && OnlyTracked(w, tracked, held)
    ensures if changed then Falls(ins, outs, ins', outs') else ins' == ins && outs' == outs
    ensures !changed ==> UpToDate(w, tracked, block, ins, outs, held) && SameElsewhere(block, given, held)
  {
    hide Inv, IsEntryState, Reachable, Falls, Recorded, OnlyTracked, SameElsewhere, HeldPast;
    assert block < |w.f.blocks|;
    InvValid(w, ins, outs);
    ins', outs', held, changed := ins, outs, given, false;
    var newInState := EntryState(w, reachable, block, ins, outs);
    if newInState.None? {
      NoStateIsStable(w, ins, outs, block);
      SameIsSame(block, given);
      return;
    }
    StepKeeps(w, ins, outs, block, newInState.value);
    StepFalls(w, ins, outs, block, newInState.value);
    var currentLocks;
    currentLocks, held := WalkBlock(w, tracked, block, newInState.value, given);
    if ins[block] != newInState {
      ins' := ins[block := newInState];
      changed := true;
    }
    if outs[block] != Some(currentLocks) {
      outs' := outs[block := Some(currentLocks)];
      changed := true;
    }
    assert ins' == ins[block := newInState] && outs' == outs[block := Some(currentLocks)];
  }

  lemma SameIsSame(block: nat, held: HeldLocks)
    ensures SameElsewhere(block, held, held)
  {
  }

  lemma NoStateIsStable(w: Flow, ins: States, outs: States, block: nat)
    requires Inv(w, ins, outs) && block < |ins| && IsEntryState(w, ins, outs, block, None)
    ensures Stable(w, ins, outs, block) && ins[block].None?
  {
    hide AllWitnessed;
    if ins[block].Some? {
      EntryStateShrinks(w, ins, outs, block, None);
    }
  }

  /** What the tracker answers: for each tracked instruction reached, the locks every path to it takes, or is entered
      with, and keeps. */
  ghost predicate IsHeldLocks(w: Flow, tracked: set<Point>, held: HeldLocks) {
    && (forall p :: p in held <==> p in tracked && w.f.Contains(p) && Reachable(w.f, p.block))
    && (forall p, lock | p in held :: lock in held[p] <==> CertainlyHeld(w, p, lock))
  }

  /** One pass over the reachable blocks. */
  method Pass(w: Flow, reachable: seq<nat>, tracked: set<Point>, ins: States, outs: States, given: HeldLocks)
    returns (ins': States, outs': States, held: HeldLocks, changed: bool)
    requires Inv(w, ins, outs) && ReachableBlocks(w.f, reachable) && OnlyTracked(w, tracked, given)
    ensures Inv(w, ins', outs') && OnlyTracked(w, tracked, held)
    ensures if changed then Falls(ins, outs, ins', outs') else ins' == ins && outs' == outs
    ensures !changed ==> forall k | 0 <= k < |reachable| :: UpToDate(w, tracked, reachable[k], ins', outs', held)
  {
    hide Inv, ReachableBlocks, OnlyTracked, UpToDate, SameElsewhere, Unknowns, Total;
    ins', outs', held, changed := ins, outs, given, false;
    for r := 0 to |reachable|
      invariant Inv(w, ins', outs') && OnlyTracked(w, tracked, held)
      invariant if changed then Falls(ins, outs, ins', outs') else ins' == ins && outs' == outs
      invariant !changed ==> forall k | 0 <= k < r :: UpToDate(w, tracked, reachable[k], ins', outs', held)
    {
      ghost var before := held;
      var moved;
      ins', outs', held, moved := VisitBlock(w, reachable, tracked, reachable[r], ins', outs', held);
      changed := changed || moved;
      if !changed {
        forall k | 0 <= k < r
          ensures UpToDate(w, tracked, reachable[k], ins', outs', held)
        {
          UpToDateKept(w, tracked, reachable[k], reachable[r], ins', outs', before, held);
        }
      }
    }
  }

  lemma UpToDateKept(w: Flow, tracked: set<Point>, block: nat, visited: nat, ins: States, outs: States,
                     before: HeldLocks, held: HeldLocks)
    requires UpToDate(w, tracked, block, ins, outs, before) && SameElsewhere(visited, before, held)
    requires UpToDate(w, tracked, visited, ins, outs, held)
    ensures UpToDate(w, tracked, block, ins, outs, held)
  {
    hide Stable;
  }

  lemma StartKeeps(w: Flow)
    requires w.f.Valid()
    ensures var none: States := seq(|w.f.blocks|, _ => None);
            Inv(w, none[0 := Some(w.initial)], none)
  {
    WitnessedEntry(w);
  }

  /** The locks held before each tracked instruction of the function. */
  method CollectHeldLocks(f: Function, effects: FunctionLockEffects, reachable: seq<nat>, tracked: set<Point>)
    returns (held: HeldLocks)
    requires f.Valid() && ReachableBlocks(f, reachable)
    ensures IsHeldLocks(Flow(f, effects, {}), tracked, held)
  {
    hide Inv, ReachableBlocks, UpToDate, IsHeldLocks, Reachable, Unknowns, Total;
    var w := Flow(f, effects, {});
    held := map[];
    if tracked == {} {
      NothingTracked(w);
      return;
    }
    var outs: States := seq(|f.blocks|, _ => None);
    StartKeeps(w);
    var ins := outs[0 := Some(w.initial)];
    var changed := true;
    while changed
      invariant Inv(w, ins, outs) && OnlyTracked(w, tracked, held)
      invariant !changed ==> forall k | 0 <= k < |reachable| :: UpToDate(w, tracked, reachable[k], ins, outs, held)
      decreases Unknowns(ins) + Unknowns(outs), Total(ins) + Total(outs), changed
    {
      ins, outs, held, changed := Pass(w, reachable, tracked, ins, outs, held);
    }
    EndIsExact(w, reachable, tracked, ins, outs, held);
  }

  lemma NothingTracked(w: Flow)
    ensures IsHeldLocks(w, {}, map[])
  {
  }

  lemma EndIsExact(w: Flow, reachable: seq<nat>, tracked: set<Point>, ins: States, outs: States, held: HeldLocks)
    requires Inv(w, ins, outs) && ReachableBlocks(w.f, reachable) && OnlyTracked(w, tracked, held)
    requires forall k | 0 <= k < |reachable| :: UpToDate(w, tracked, reachable[k], ins, outs, held)
    ensures IsHeldLocks(w, tracked, held)
  {
    hide Inv, Reachable, Stable, HeldOnEveryPath, HeldAt, CertainlyHeld;
    InvValid(w, ins, outs);
    forall b: nat | b < |w.f.blocks| && Reachable(w.f, b)
      ensures UpToDate(w, tracked, b, ins, outs, held)
    {
      var k :| 0 <= k < |reachable| && reachable[k] == b;
    }
    forall p, lock | p in tracked && w.f.Contains(p) && Reachable(w.f, p.block)
      ensures p in held && (lock in held[p] <==> CertainlyHeld(w, p, lock))
    {
      CertainlyHeldMeans(w, p, lock);
      StableIsExact(w, ins, outs, p, lock);
      assert UpToDate(w, tracked, p.block, ins, outs, held);
      assert Point(p.block, p.index) == p;
    }
    forall p | p in tracked && w.f.Contains(p) && Reachable(w.f, p.block)
      ensures p in held
    {
      StableIsExact(w, ins, outs, p, "");
      assert UpToDate(w, tracked, p.block, ins, outs, held);
      assert Point(p.block, p.index) == p;
    }
  }
}
