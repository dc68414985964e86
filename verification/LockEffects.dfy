/** What each call of a function does to the locks held. */
module LockEffects {
  import opened ControlFlow

  datatype LockEffectKind = Acquire | TryAcquire | Release | GuardAcquire | GuardRelease

  datatype LockEffect = LockEffect(kind: LockEffectKind, lockIds: seq<string>, guardId: string,
                                   recursiveLock: bool, adoptsHeldLocks: bool)

  /** The effects of each call, and the locks each guard object of the function may hold. */
  datatype FunctionLockEffects = FunctionLockEffects(effectsByInstruction: map<Point, seq<LockEffect>>,
                                                     guardBindings: map<string, seq<string>>)

  datatype LockStateChange = LockStateChange(acquired: seq<string>, orderedAcquired: seq<string>,
                                             recursivelyAcquirable: seq<string>, released: seq<string>)
  {
    /** The locks held past the instruction: what it releases goes first. */
    function Apply(locks: set<string>): set<string> {
      (locks - set lock | lock in released) + set lock | lock in acquired
    }
  }

  // ----- the effects of a function -----------------------------------------------------------------

  predicate NoneTwice(locks: seq<string>) {
    forall i, j | 0 <= i < j < |locks| :: locks[i] != locks[j]
  }

  method BindLocks(bound: seq<string>, lockIds: seq<string>) returns (more: seq<string>)
    requires NoneTwice(bound)
    ensures NoneTwice(more) && forall lock :: lock in more <==> lock in bound || lock in lockIds
  {
    more := bound;
    for i := 0 to |lockIds|
      invariant NoneTwice(more) && forall lock :: lock in more <==> lock in bound || lock in lockIds[..i]
    {
      if lockIds[i] !in more {
        more := more + [lockIds[i]];
      }
      assert lockIds[..i + 1] == lockIds[..i] + [lockIds[i]];
    }
    assert lockIds[..|lockIds|] == lockIds;
  }

  type Bindings = map<string, seq<string>>

  predicate Bound(bindings: Bindings, guard: string, lock: string) {
    guard in bindings && lock in bindings[guard]
  }

  predicate ValidBindings(bindings: Bindings) {
    forall guard | guard in bindings :: NoneTwice(bindings[guard])
  }

  predicate BindsAt(effects: seq<LockEffect>, k: nat, guard: string, lock: string) {
    k < |effects| && effects[k].kind.GuardAcquire? && effects[k].guardId == guard && lock in effects[k].lockIds
  }

  ghost predicate BindsIn(effects: seq<LockEffect>, guard: string, lock: string) {
    exists k: nat :: BindsAt(effects, k, guard, lock)
  }

  /** Adds the locks one call binds to its guards. */
  method BindGuards(given: Bindings, effects: seq<LockEffect>) returns (bindings: Bindings)
    requires ValidBindings(given)
    ensures ValidBindings(bindings)
    ensures forall guard, lock :: Bound(bindings, guard, lock) <==> Bound(given, guard, lock) || BindsIn(effects, guard, lock)
  {
    bindings := given;
    for i := 0 to |effects|
      invariant ValidBindings(bindings)
      invariant forall guard, lock :: Bound(bindings, guard, lock)
                  <==> Bound(given, guard, lock) || exists k: nat | k < i :: BindsAt(effects, k, guard, lock)
    {
      var effect := effects[i];
      if effect.kind.GuardAcquire? {
        ghost var before := bindings;
        var bound := BindLocks(if effect.guardId in bindings then bindings[effect.guardId] else [], effect.lockIds);
        bindings := bindings[effect.guardId := bound];
        forall guard, lock
          ensures Bound(bindings, guard, lock) <==> Bound(before, guard, lock) || BindsAt(effects, i, guard, lock)
        {
        }
      }
    }
  }

  ghost predicate BoundBy(resolved: seq<(Point, seq<LockEffect>)>, i: nat, guard: string, lock: string) {
    i < |resolved| && BindsIn(resolved[i].1, guard, lock)
  }

  /** Collects the effects of every call that has some. A guard holds each lock some acquisition through it takes. */
  method CollectFunctionLockEffects(resolved: seq<(Point, seq<LockEffect>)>) returns (effects: FunctionLockEffects)
    requires forall i, j | 0 <= i < j < |resolved| :: resolved[i].0 != resolved[j].0
    ensures ValidBindings(effects.guardBindings)
    ensures forall guard, lock :: Bound(effects.guardBindings, guard, lock) <==> exists i: nat :: BoundBy(resolved, i, guard, lock)
    ensures forall i | 0 <= i < |resolved| && resolved[i].1 != [] ::
              resolved[i].0 in effects.effectsByInstruction && effects.effectsByInstruction[resolved[i].0] == resolved[i].1
    ensures forall p | p in effects.effectsByInstruction :: exists i | 0 <= i < |resolved| :: resolved[i].0 == p && resolved[i].1 != []
  {
    hide ValidBindings, Bound, BindsIn;
    var byInstruction: map<Point, seq<LockEffect>>, bindings: Bindings := map[], map[];
    NothingBound();
    for i := 0 to |resolved|
      invariant ValidBindings(bindings)
      invariant forall guard, lock :: Bound(bindings, guard, lock) <==> exists k: nat | k < i :: BoundBy(resolved, k, guard, lock)
      invariant forall k | 0 <= k < i && resolved[k].1 != [] ::
                  resolved[k].0 in byInstruction && byInstruction[resolved[k].0] == resolved[k].1
      invariant forall p | p in byInstruction :: exists k | 0 <= k < i :: resolved[k].0 == p && resolved[k].1 != []
    {
      ghost var before := bindings;
      if resolved[i].1 != [] {
        bindings := BindGuards(bindings, resolved[i].1);
        byInstruction := byInstruction[resolved[i].0 := resolved[i].1];
      } else {
        NoEffectsBindNothing();
      }
      assert forall guard, lock :: Bound(bindings, guard, lock) <==> Bound(before, guard, lock) || BoundBy(resolved, i, guard, lock);
    }
    effects := FunctionLockEffects(byInstruction, bindings);
  }

  lemma NothingBound()
    ensures ValidBindings(map[]) && forall guard, lock :: !Bound(map[], guard, lock)
  {
  }

  lemma NoEffectsBindNothing()
    ensures forall guard, lock :: !BindsIn([], guard, lock)
  {
  }

  const NO_CHANGE := LockStateChange([], [], [], [])

  predicate Takes(effect: LockEffect) {
    effect.kind.Acquire? || effect.kind.GuardAcquire? || effect.kind.TryAcquire?
  }

  /** Waits for its locks: a try never does, and a guard adopting locks already held does not either. */
  predicate Waits(effect: LockEffect) {
    (effect.kind.Acquire? || effect.kind.GuardAcquire?) && !effect.adoptsHeldLocks
  }

  function Drops(effect: LockEffect, bindings: map<string, seq<string>>): seq<string> {
    if effect.kind.Release? then effect.lockIds
    else if effect.kind.GuardRelease? && effect.guardId in bindings then bindings[effect.guardId]
    else []
  }

  function Also(locks: seq<string>, more: bool, lockIds: seq<string>): seq<string> {
    if more then locks + lockIds else locks
  }

  /** What one more effect of the same instruction adds. */
  function Extended(change: LockStateChange, effect: LockEffect, bindings: map<string, seq<string>>): LockStateChange {
    LockStateChange(Also(change.acquired, Takes(effect), effect.lockIds),
                    Also(change.orderedAcquired, Waits(effect), effect.lockIds),
                    Also(change.recursivelyAcquirable, Takes(effect) && effect.recursiveLock, effect.lockIds),
                    change.released + Drops(effect, bindings))
  }

  /** The locks each effect contributes, effect after effect. */
  function ChangeOf(effects: seq<LockEffect>, bindings: map<string, seq<string>>): LockStateChange {
    if effects == [] then NO_CHANGE
    else Extended(ChangeOf(effects[..|effects| - 1], bindings), effects[|effects| - 1], bindings)
  }

  lemma ChangeOfMore(effects: seq<LockEffect>, effect: LockEffect, bindings: map<string, seq<string>>)
    ensures ChangeOf(effects + [effect], bindings) == Extended(ChangeOf(effects, bindings), effect, bindings)
  {
    assert (effects + [effect])[..|effects|] == effects;
  }

  /** Taken by name or through a guard, waiting or trying. */
  ghost predicate TakenBy(effects: seq<LockEffect>, i: nat, lock: string) {
    i < |effects| && effects[i].kind in {Acquire, GuardAcquire, TryAcquire} && lock in effects[i].lockIds
  }

  /** Taken by an effect that blocks until it has the lock. */
  ghost predicate AwaitedBy(effects: seq<LockEffect>, i: nat, lock: string) {
    && i < |effects| && effects[i].kind in {Acquire, GuardAcquire} && !effects[i].adoptsHeldLocks
    && lock in effects[i].lockIds
  }

  ghost predicate RetakableBy(effects: seq<LockEffect>, i: nat, lock: string) {
    TakenBy(effects, i, lock) && effects[i].recursiveLock
  }

  /** Released by name, or by the release of a guard it is bound to. */
  ghost predicate DroppedBy(effects: seq<LockEffect>, bindings: Bindings, i: nat, lock: string) {
    && i < |effects|
    && ((effects[i].kind.Release? && lock in effects[i].lockIds)
        || (effects[i].kind.GuardRelease? && Bound(bindings, effects[i].guardId, lock)))
  }

  ghost predicate Taken(effects: seq<LockEffect>, lock: string) {
    exists i: nat :: TakenBy(effects, i, lock)
  }

  ghost predicate Awaited(effects: seq<LockEffect>, lock: string) {
    exists i: nat :: AwaitedBy(effects, i, lock)
  }

  ghost predicate Retakable(effects: seq<LockEffect>, lock: string) {
    exists i: nat :: RetakableBy(effects, i, lock)
  }

  ghost predicate Dropped(effects: seq<LockEffect>, bindings: Bindings, lock: string) {
    exists i: nat :: DroppedBy(effects, bindings, i, lock)
  }

  /** Each of the four fields holds exactly the locks some effect puts there. */
  ghost predicate IsChange(change: LockStateChange, effects: seq<LockEffect>, bindings: Bindings) {
    && (forall lock :: lock in change.acquired <==> Taken(effects, lock))
    && (forall lock :: lock in change.orderedAcquired <==> Awaited(effects, lock))
    && (forall lock :: lock in change.recursivelyAcquirable <==> Retakable(effects, lock))
    && (forall lock :: lock in change.released <==> Dropped(effects, bindings, lock))
  }

  lemma IsChangeMore(change: LockStateChange, effects: seq<LockEffect>, effect: LockEffect, bindings: Bindings)
    requires IsChange(change, effects, bindings)
    ensures IsChange(Extended(change, effect, bindings), effects + [effect], bindings)
  {
    hide Taken, Awaited, Retakable, Dropped;
    var more := effects + [effect];
    forall lock
      ensures Taken(more, lock) <==> Taken(effects, lock) || TakenBy([effect], 0, lock)
      ensures Awaited(more, lock) <==> Awaited(effects, lock) || AwaitedBy([effect], 0, lock)
    {
      OneMore(effects, effect, bindings, lock);
    }
    forall lock
      ensures Retakable(more, lock) <==> Retakable(effects, lock) || RetakableBy([effect], 0, lock)
      ensures Dropped(more, bindings, lock) <==> Dropped(effects, bindings, lock) || DroppedBy([effect], bindings, 0, lock)
    {
      OneMore(effects, effect, bindings, lock);
    }
  }

  lemma OneMore(effects: seq<LockEffect>, effect: LockEffect, bindings: Bindings, lock: string)
    ensures Taken(effects + [effect], lock) <==> Taken(effects, lock) || TakenBy([effect], 0, lock)
    ensures Awaited(effects + [effect], lock) <==> Awaited(effects, lock) || AwaitedBy([effect], 0, lock)
    ensures Retakable(effects + [effect], lock) <==> Retakable(effects, lock) || RetakableBy([effect], 0, lock)
    ensures Dropped(effects + [effect], bindings, lock)
       <==> Dropped(effects, bindings, lock) || DroppedBy([effect], bindings, 0, lock)
  {
    var more, last := effects + [effect], |effects|;
    SameBefore(effects, effect, bindings, lock);
    assert TakenBy(more, last, lock) <==> TakenBy([effect], 0, lock);
    assert AwaitedBy(more, last, lock) <==> AwaitedBy([effect], 0, lock);
    assert RetakableBy(more, last, lock) <==> RetakableBy([effect], 0, lock);
    assert DroppedBy(more, bindings, last, lock) <==> DroppedBy([effect], bindings, 0, lock);
  }

  lemma SameBefore(effects: seq<LockEffect>, effect: LockEffect, bindings: Bindings, lock: string)
    ensures forall i: nat | i < |effects| ::
              && (TakenBy(effects + [effect], i, lock) <==> TakenBy(effects, i, lock))
              && (AwaitedBy(effects + [effect], i, lock) <==> AwaitedBy(effects, i, lock))
              && (RetakableBy(effects + [effect], i, lock) <==> RetakableBy(effects, i, lock))
              && (DroppedBy(effects + [effect], bindings, i, lock) <==> DroppedBy(effects, bindings, i, lock))
  {
  }

  lemma {:induction false} ChangeOfIsChange(effects: seq<LockEffect>, bindings: Bindings)
    ensures IsChange(ChangeOf(effects, bindings), effects, bindings)
  {
    if effects != [] {
      var before, last := effects[..|effects| - 1], effects[|effects| - 1];
      assert effects == before + [last];
      ChangeOfIsChange(before, bindings);
      IsChangeMore(ChangeOf(before, bindings), before, last, bindings);
    }
  }

  function EffectsAt(effects: FunctionLockEffects, p: Point): seq<LockEffect> {
    if p in effects.effectsByInstruction then effects.effectsByInstruction[p] else []
  }

  function ChangeAt(effects: FunctionLockEffects, p: Point): LockStateChange {
    if p in effects.effectsByInstruction
    then ChangeOf(effects.effectsByInstruction[p], effects.guardBindings) else NO_CHANGE
  }

  method ApplyEffect(change: LockStateChange, effect: LockEffect, bindings: map<string, seq<string>>)
    returns (more: LockStateChange)
    ensures more == Extended(change, effect, bindings)
  {
    more := change;
    assert change.released + [] == change.released;
    match effect.kind {
      case Acquire | GuardAcquire =>
        more := more.(acquired := more.acquired + effect.lockIds);
        if !effect.adoptsHeldLocks {
          more := more.(orderedAcquired := more.orderedAcquired + effect.lockIds);
        }
        if effect.recursiveLock {
          more := more.(recursivelyAcquirable := more.recursivelyAcquirable + effect.lockIds);
        }
      case TryAcquire =>
        more := more.(acquired := more.acquired + effect.lockIds);
        if effect.recursiveLock {
          more := more.(recursivelyAcquirable := more.recursivelyAcquirable + effect.lockIds);
        }
      case Release =>
        more := more.(released := more.released + effect.lockIds);
      case GuardRelease =>
        if effect.guardId in bindings {
          more := more.(released := more.released + bindings[effect.guardId]);
        }
    }
  }

  method LockStateChangeFor(p: Point, effects: FunctionLockEffects) returns (change: LockStateChange)
    ensures change == ChangeAt(effects, p)
    ensures IsChange(change, EffectsAt(effects, p), effects.guardBindings)
  {
    hide Extended, IsChange;
    ChangeOfIsChange(EffectsAt(effects, p), effects.guardBindings);
    change := NO_CHANGE;
    if p !in effects.effectsByInstruction {
      return;
    }
    var list := effects.effectsByInstruction[p];
    for i := 0 to |list|
      invariant change == ChangeOf(list[..i], effects.guardBindings)
    {
      assert list[..i + 1] == list[..i] + [list[i]];
      ChangeOfMore(list[..i], list[i], effects.guardBindings);
      change := ApplyEffect(change, list[i], effects.guardBindings);
    }
    assert list[..|list|] == list;
  }

  /** Whether one instruction has a lock held past it depends on that lock alone. */
  lemma ApplyByLock(change: LockStateChange, a: set<string>, b: set<string>, lock: string)
    requires lock in a <==> lock in b
    ensures lock in change.Apply(a) <==> lock in change.Apply(b)
  {
  }

  lemma ApplyMonotone(change: LockStateChange, a: set<string>, b: set<string>)
    requires a <= b
    ensures change.Apply(a) <= change.Apply(b)
  {
  }
}
