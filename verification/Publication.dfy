/** Data published through an atomic flag: which accesses its release and acquire order, and why. */
module Publication {
  import opened ControlFlow
  import opened LiveDominance
  import DataRaces

  datatype MemoryOrder = Relaxed | Acquire | Release | AcquireRelease | SequentiallyConsistent

  predicate ReleasesAtLeast(order: MemoryOrder) {
    order.Release? || order.AcquireRelease? || order.SequentiallyConsistent?
  }

  predicate AcquiresAtLeast(order: MemoryOrder) {
    order.Acquire? || order.AcquireRelease? || order.SequentiallyConsistent?
  }

  /** What the memory model calls a release: any order but relaxed and acquire. */
  ghost predicate IsReleaseOrder(order: Option<MemoryOrder>) {
    order.Some? && order.value != Relaxed && order.value != Acquire
  }

  /** And an acquire: any order but relaxed and release. */
  ghost predicate IsAcquireOrder(order: Option<MemoryOrder>) {
    order.Some? && order.value != Relaxed && order.value != Release
  }

  /** The edge a branch takes when a load returned some constant, and the blocks that edge dominates. */
  datatype Arm = Arm(branch: nat, successor: nat, dominated: set<nat>)

  datatype FlagStore = FlagStore(functionId: string, point: Point, isStore: bool, order: Option<MemoryOrder>,
                                 storedValue: Option<int>)

  /** A branch on what a load returned: the successor each constant that folds opens, and the blocks each edge
      dominates. */
  datatype Branch = Branch(block: nat, opens: map<int, nat>, dominated: map<nat, set<nat>>) {
    /** The arm taken for a constant. */
    function ArmFor(constant: int): Arm
      requires constant in opens
    {
      Arm(block, opens[constant], if opens[constant] in dominated then dominated[opens[constant]] else {})
    }
  }

  /** The arms of the branches that fold for the constant. */
  function ArmsOf(branches: seq<Branch>, constant: int): seq<Arm> {
    if branches == [] then []
    else
      var before, last := ArmsOf(branches[..|branches| - 1], constant), branches[|branches| - 1];
      if constant in last.opens then before + [last.ArmFor(constant)] else before
  }

  lemma {:induction false} BranchOf(branches: seq<Branch>, constant: int, arm: Arm) returns (branch: Branch)
    requires arm in ArmsOf(branches, constant)
    ensures branch in branches && constant in branch.opens && arm == branch.ArmFor(constant)
  {
    var last := branches[|branches| - 1];
    if arm in ArmsOf(branches[..|branches| - 1], constant) {
      branch := BranchOf(branches[..|branches| - 1], constant, arm);
    } else {
      branch := last;
    }
  }

  /** An atomic load, and the branches on what it returns. */
  datatype FlagLoad = FlagLoad(functionId: string, point: Point, order: Option<MemoryOrder>, branches: seq<Branch>) {
    function ArmsFor(published: int): seq<Arm> {
      ArmsOf(branches, published)
    }
  }

  datatype FlagOperations = FlagOperations(stores: seq<FlagStore>, loads: seq<FlagLoad>, initialValue: Option<int>)

  datatype Fence = Fence(point: Point, order: MemoryOrder)

  /** A function: its graph, its live blocks, its fences, the accesses that are followed, and the blocks in loops. */
  datatype Body = Body(graph: Function, taken: seq<Option<nat>>, live: set<nat>, fences: seq<Fence>,
                       accesses: seq<Point>, inLoops: set<nat>)

  datatype Spawn = Spawn(entryFunctionId: string, insideLoop: bool, spawner: string)

  datatype Unit = Unit(bodies: map<string, Body>, flags: map<string, FlagOperations>, plainlyStored: set<string>,
                       callees: seq<string>, spawns: seq<Spawn>)

  ghost predicate ValidBody(body: Body) {
    && body.graph.Valid() && ValidTaken(body.graph, body.taken) && IsLive(body.graph, body.taken, body.live)
    && BoundedBlocks(body.graph, body.live)
    && (forall fence | fence in body.fences :: body.graph.Contains(fence.point) && fence.point.block in body.live)
    && (forall access | access in body.accesses :: body.graph.Contains(access))
    && (forall p: Point | body.graph.Contains(p) && p.block !in body.inLoops :: !OnCycle(body.graph, body.live, p))
  }

  /** The instruction is in a live block, and is no fence. */
  ghost predicate IsOperationOf(body: Body, p: Point) {
    body.graph.Contains(p) && p.block in body.live && forall fence | fence in body.fences :: fence.point != p
  }

  ghost predicate ValidArm(body: Body, arm: Arm) {
    forall block | block in arm.dominated :: EdgeDominates(body.graph, body.live, arm.branch, arm.successor, block)
  }

  ghost predicate ValidLoad(u: Unit, load: FlagLoad) {
    && load.functionId in u.bodies && IsOperationOf(u.bodies[load.functionId], load.point)
    && forall published, arm | arm in load.ArmsFor(published) ::
         ValidArm(u.bodies[load.functionId], arm)
  }

  ghost predicate ValidStore(u: Unit, store: FlagStore) {
    store.functionId in u.bodies && IsOperationOf(u.bodies[store.functionId], store.point)
  }

  ghost predicate ValidUnit(u: Unit) {
    && (forall id | id in u.bodies :: ValidBody(u.bodies[id]))
    && (forall flag, store | flag in u.flags && store in u.flags[flag].stores :: ValidStore(u, store))
    && (forall flag, load | flag in u.flags && load in u.flags[flag].loads :: ValidLoad(u, load))
  }

  // ----- what the tags mean ------------------------------------------------------------------------

  predicate StartsOnce(u: Unit, id: string, i: nat) {
    && i < |u.spawns| && u.spawns[i].entryFunctionId == id && !u.spawns[i].insideLoop && u.spawns[i].spawner == "main"
    && forall k: nat | k < |u.spawns| && k != i :: u.spawns[k].entryFunctionId != id
  }

  /** A thread entry nothing calls, started by one spawn of `main`, outside any loop. */
  ghost predicate StartedOnce(u: Unit, id: string) {
    id !in u.callees && exists i: nat :: StartsOnce(u, id, i)
  }

  /** Observing the stored constant proves that the publishing store was read. */
  ghost predicate Publishes(u: Unit, flag: string) {
    && flag in u.flags && flag !in u.plainlyStored && |u.flags[flag].stores| == 1
    && var store := u.flags[flag].stores[0];
       && store.isStore && store.order.Some? && store.storedValue.Some?
       && u.flags[flag].initialValue.Some? && store.storedValue != u.flags[flag].initialValue
       && store.functionId in u.bodies && store.point.block !in u.bodies[store.functionId].inLoops
       && StartedOnce(u, store.functionId)
  }

  function StoreOf(u: Unit, flag: string): FlagStore
    requires flag in u.flags && |u.flags[flag].stores| == 1
  {
    u.flags[flag].stores[0]
  }

  ghost predicate IsReleaseFence(body: Body, store: FlagStore, p: Point) {
    && (exists fence | fence in body.fences :: fence.point == p && IsReleaseOrder(Some(fence.order)))
    && Dominates(body.graph, body.live, p, store.point)
  }

  /** Where the publishing thread releases what it did: at the store, or at a fence before it. */
  ghost predicate IsReleasePoint(body: Body, store: FlagStore, p: Point) {
    (p == store.point && IsReleaseOrder(store.order)) || IsReleaseFence(body, store, p)
  }

  ghost predicate StandsBefore(body: Body, store: FlagStore, access: Point) {
    && Dominates(body.graph, body.live, access, store.point)
    && exists p :: IsReleasePoint(body, store, p) && Dominates(body.graph, body.live, access, p)
  }

  /** The access stands before the release of the flag's publication. */
  ghost predicate IsBeforeRelease(u: Unit, flag: string, id: string, access: Point) {
    && Publishes(u, flag) && id == StoreOf(u, flag).functionId && access in u.bodies[id].accesses
    && StandsBefore(u.bodies[id], StoreOf(u, flag), access)
  }

  ghost predicate AfterFence(body: Body, arm: Arm, fence: Fence, access: Point) {
    && fence in body.fences && IsAcquireOrder(Some(fence.order)) && fence.point.block in arm.dominated
    && Dominates(body.graph, body.live, fence.point, access)
  }

  /** On this arm the load, or a fence after it, acquires what the flag published. */
  ghost predicate OrderedOnArm(body: Body, load: FlagLoad, arm: Arm, access: Point) {
    && access.block in arm.dominated && load.order.Some?
    && (IsAcquireOrder(load.order) || exists fence :: AfterFence(body, arm, fence, access))
  }

  /** The branch folds for the constant, and orders the access on the edge the constant opens. */
  ghost predicate OrderedOnBranch(body: Body, load: FlagLoad, branch: Branch, published: int, access: Point) {
    && published in branch.opens && branch.opens[published] in branch.dominated
    && OrderedOnArm(body, load, Arm(branch.block, branch.opens[published], branch.dominated[branch.opens[published]]), access)
  }

  lemma {:induction false} ArmOf(branches: seq<Branch>, published: int, branch: Branch)
    requires branch in branches && published in branch.opens
    ensures branch.ArmFor(published) in ArmsOf(branches, published)
  {
    var last := |branches| - 1;
    if branch != branches[last] {
      assert branches == branches[..last] + [branches[last]];
      ArmOf(branches[..last], published, branch);
    }
  }

  /** Ordered on some branch exactly when ordered on one of the arms collected. */
  lemma OrderedOnSomeArm(body: Body, load: FlagLoad, published: int, access: Point)
    ensures OrderedAfterLoad(body, load, published, access)
       <==> exists arm :: arm in load.ArmsFor(published) && OrderedOnArm(body, load, arm, access)
  {
    hide AfterFence;
    if branch :| branch in load.branches && OrderedOnBranch(body, load, branch, published, access) {
      ArmOf(load.branches, published, branch);
      assert branch.ArmFor(published)
        == Arm(branch.block, branch.opens[published], branch.dominated[branch.opens[published]]);
    }
    if arm :| arm in load.ArmsFor(published) && OrderedOnArm(body, load, arm, access) {
      var branch := BranchOf(load.branches, published, arm);
      assert OrderedOnBranch(body, load, branch, published, access);
    }
  }

  ghost predicate OrderedAfterLoad(body: Body, load: FlagLoad, published: int, access: Point) {
    exists branch | branch in load.branches :: OrderedOnBranch(body, load, branch, published, access)
  }

  /** The access stands after an acquire that observed the flag's publication. */
  ghost predicate IsAfterAcquire(u: Unit, flag: string, id: string, access: Point) {
    && Publishes(u, flag) && id != StoreOf(u, flag).functionId && id in u.bodies && access in u.bodies[id].accesses
    && exists load | load in u.flags[flag].loads ::
         load.functionId == id && OrderedAfterLoad(u.bodies[id], load, StoreOf(u, flag).storedValue.value, access)
  }

  // ----- executions --------------------------------------------------------------------------------

  datatype Origin = Initial | Called | Spawned(spawn: nat)

  /** One activation of a function, and the instructions it has run. */
  datatype Activation = Activation(functionId: string, origin: Origin, run: seq<Point>)

  /** One instruction run by one activation. */
  datatype Event = Event(activation: nat, position: nat)

  /** The value each load returned, and the store it was read from: none when it is the initial value. */
  datatype Execution = Execution(activations: seq<Activation>, values: map<Event, int>, readsFrom: map<Event, Event>) {
    predicate Has(e: Event) {
      e.activation < |activations| && e.position < |activations[e.activation].run|
    }

    function FunctionOf(e: Event): string
      requires Has(e)
    {
      activations[e.activation].functionId
    }

    function PointOf(e: Event): Point
      requires Has(e)
    {
      activations[e.activation].run[e.position]
    }

    predicate At(e: Event, id: string, p: Point) {
      Has(e) && FunctionOf(e) == id && PointOf(e) == p
    }

    /** Earlier in the same activation, hence sequenced before. */
    predicate SequencedBefore(a: Event, b: Event) {
      Has(a) && Has(b) && a.activation == b.activation && a.position < b.position
    }
  }

  /** Activations start the way the call sites and spawns say; `main` runs once. */
  ghost predicate TrueOrigins(u: Unit, x: Execution) {
    && (forall i | 0 <= i < |x.activations| ::
          var activation := x.activations[i];
          match activation.origin
          case Initial => forall k | 0 <= k < |u.spawns| :: u.spawns[k].entryFunctionId != activation.functionId
          case Called => activation.functionId in u.callees
          case Spawned(spawn) => spawn < |u.spawns| && u.spawns[spawn].entryFunctionId == activation.functionId)
    && (forall i, j | 0 <= i < |x.activations| && 0 <= j < |x.activations|
                      && x.activations[i].origin == x.activations[j].origin && x.activations[i].origin.Spawned?
                      && x.activations[i].origin.spawn < |u.spawns|
                      && !u.spawns[x.activations[i].origin.spawn].insideLoop
                      && u.spawns[x.activations[i].origin.spawn].spawner == "main" :: i == j)
  }

  ghost predicate WritesFlag(u: Unit, x: Execution, flag: string, store: FlagStore, s: Event) {
    flag in u.flags && store in u.flags[flag].stores && x.At(s, store.functionId, store.point)
  }

  /** Unless the flag is stored to plainly, a load returns its initial value or what one of its stores wrote. */
  ghost predicate TrueRead(u: Unit, x: Execution, flag: string, l: Event)
    requires flag in u.flags
  {
    && l in x.values
    && if l in x.readsFrom
       then exists store :: WritesFlag(u, x, flag, store, x.readsFrom[l])
                            && (store.isStore && store.storedValue.Some? ==> x.values[l] == store.storedValue.value)
       else u.flags[flag].initialValue.Some? ==> x.values[l] == u.flags[flag].initialValue.value
  }

  ghost predicate TrueReads(u: Unit, x: Execution) {
    forall flag, load, l | flag in u.flags && flag !in u.plainlyStored && load in u.flags[flag].loads
                           && x.At(l, load.functionId, load.point) :: TrueRead(u, x, flag, l)
  }

  ghost predicate Returned(x: Execution, activation: nat, before: nat, p: Point, value: int, position: nat)
    requires activation < |x.activations|
  {
    && position < before <= |x.activations[activation].run| && x.activations[activation].run[position] == p
    && Event(activation, position) in x.values && x.values[Event(activation, position)] == value
  }

  /** An earlier load returned a value for which the branch goes that way, unless its condition does not fold for it. */
  ghost predicate Decided(x: Execution, activation: nat, before: nat, load: FlagLoad, branch: Branch, successor: nat,
                          position: nat)
    requires activation < |x.activations|
  {
    && position < before <= |x.activations[activation].run| && x.activations[activation].run[position] == load.point
    && Event(activation, position) in x.values
    && var value := x.values[Event(activation, position)];
       value in branch.opens ==> branch.opens[value] == successor
  }

  /** A branch on a load goes where the value the load returned takes it. */
  ghost predicate TrueBranches(u: Unit, x: Execution) {
    forall flag, load, branch, successor, activation: nat, i: nat
      | flag in u.flags && load in u.flags[flag].loads && branch in load.branches
        && activation < |x.activations| && x.activations[activation].functionId == load.functionId
        && Crosses(x.activations[activation].run, branch.block, successor, i) ::
      exists position: nat :: Decided(x, activation, i, load, branch, successor, position)
  }

  /** Every branch that folds for the published constant goes another way for the initial value. */
  ghost predicate Distinguishes(u: Unit, flag: string) {
    Publishes(u, flag) ==>
      var published, initial := StoreOf(u, flag).storedValue.value, u.flags[flag].initialValue.value;
      forall load, branch | load in u.flags[flag].loads && branch in load.branches && published in branch.opens ::
        initial in branch.opens && branch.opens[initial] != branch.opens[published]
  }

  ghost predicate IsExecution(u: Unit, x: Execution) {
    && (forall i | 0 <= i < |x.activations| ::
          && x.activations[i].functionId in u.bodies
          && var body := u.bodies[x.activations[i].functionId];
             |body.taken| == |body.graph.blocks| && IsRun(body.graph, body.taken, x.activations[i].run))
    && TrueOrigins(u, x) && TrueReads(u, x) && TrueBranches(u, x)
  }

  /** The fence is run by this event. */
  ghost predicate RunsFence(u: Unit, x: Execution, fence: Fence, e: Event) {
    && x.Has(e) && x.FunctionOf(e) in u.bodies && fence in u.bodies[x.FunctionOf(e)].fences
    && x.PointOf(e) == fence.point
  }

  /** A release: the store itself, or a fence sequenced before it. */
  ghost predicate IsReleaseOf(u: Unit, x: Execution, flag: string, a: Event, s: Event) {
    || (a == s && exists store :: WritesFlag(u, x, flag, store, s) && IsReleaseOrder(store.order))
    || (exists fence :: RunsFence(u, x, fence, a) && IsReleaseOrder(Some(fence.order)) && x.SequencedBefore(a, s))
  }

  ghost predicate ReadsFlag(u: Unit, x: Execution, flag: string, load: FlagLoad, l: Event) {
    flag in u.flags && load in u.flags[flag].loads && x.At(l, load.functionId, load.point)
  }

  /** An acquire: the load itself, or a fence sequenced after it. */
  ghost predicate IsAcquireOf(u: Unit, x: Execution, flag: string, l: Event, b: Event) {
    || (b == l && exists load :: ReadsFlag(u, x, flag, load, l) && IsAcquireOrder(load.order))
    || (exists fence :: RunsFence(u, x, fence, b) && IsAcquireOrder(Some(fence.order)) && x.SequencedBefore(l, b))
  }

  ghost predicate Observes(u: Unit, x: Execution, flag: string, s: Event, l: Event) {
    && (exists store :: WritesFlag(u, x, flag, store, s)) && (exists load :: ReadsFlag(u, x, flag, load, l))
    && l in x.readsFrom && x.readsFrom[l] == s
  }

  /** A release synchronizes with an acquire when the load reads what the store wrote: sections 6.9.2.1, 31.4 and 31.11
      of C++20. */
  ghost predicate SynchronizesWith(u: Unit, x: Execution, a: Event, b: Event) {
    exists flag, s, l :: Observes(u, x, flag, s, l) && IsReleaseOf(u, x, flag, a, s) && IsAcquireOf(u, x, flag, l, b)
  }

  ghost predicate Ordered(u: Unit, x: Execution, a: Event, b: Event) {
    x.SequencedBefore(a, b) || SynchronizesWith(u, x, a, b)
  }

  ghost predicate HappensBefore(u: Unit, x: Execution, a: Event, b: Event) {
    exists chain: seq<Event> :: |chain| > 1 && chain[0] == a && chain[|chain| - 1] == b
                   && forall i | 0 < i < |chain| :: Ordered(u, x, chain[i - 1], chain[i])
  }

  // ----- the theorem -------------------------------------------------------------------------------

  ghost predicate OrSame(x: Execution, a: Event, b: Event) {
    a == b || x.SequencedBefore(a, b)
  }

  lemma ThroughSynchronization(u: Unit, x: Execution, a: Event, r: Event, q: Event, c: Event)
    requires OrSame(x, a, r) && SynchronizesWith(u, x, r, q) && OrSame(x, q, c)
    ensures HappensBefore(u, x, a, c)
  {
    hide SynchronizesWith;
    assert Ordered(u, x, r, q);
    var chain := (if a == r then [] else [a]) + [r, q] + (if q == c then [] else [c]);
    assert forall i | 0 < i < |chain| :: Ordered(u, x, chain[i - 1], chain[i]);
  }

  lemma TraceOf(u: Unit, x: Execution, i: nat)
    requires ValidUnit(u) && IsExecution(u, x) && i < |x.activations|
    ensures x.activations[i].functionId in u.bodies && ValidBody(u.bodies[x.activations[i].functionId])
    ensures IsTrace(u.bodies[x.activations[i].functionId].graph, u.bodies[x.activations[i].functionId].live,
                    x.activations[i].run)
  {
    var body := u.bodies[x.activations[i].functionId];
    assert ValidBody(body);
    RunIsTrace(body.graph, body.taken, body.live, x.activations[i].run);
  }

  /** A function started once has one activation. */
  lemma OneActivation(u: Unit, x: Execution, id: string, i: nat, j: nat)
    requires TrueOrigins(u, x) && StartedOnce(u, id) && i < |x.activations| && j < |x.activations|
    requires x.activations[i].functionId == id && x.activations[j].functionId == id
    ensures i == j
  {
    var k: nat :| StartsOnce(u, id, k);
    forall m: nat | m < |x.activations| && x.activations[m].functionId == id
      ensures x.activations[m].origin == Spawned(k)
    {
      var origin := x.activations[m].origin;
      assert origin.Spawned? ==> origin.spawn < |u.spawns| && u.spawns[origin.spawn].entryFunctionId == id;
      assert !origin.Called? && !origin.Initial?;
    }
  }

  /** Along one run, an access before the release is followed by the release, and that by the store. */
  lemma ReleaseFollows(body: Body, store: FlagStore, access: Point, trace: seq<Point>, i: nat, j: nat)
    returns (p: Point, k: nat)
    requires ValidBody(body) && IsOperationOf(body, store.point) && store.point.block !in body.inLoops
    requires IsTrace(body.graph, body.live, trace) && StandsBefore(body, store, access)
    requires i < |trace| && j < |trace| && trace[i] == access && trace[j] == store.point
    ensures i <= k <= j && trace[k] == p && IsReleasePoint(body, store, p)
  {
    hide IsTrace, Dominates, OnCycle;
    assert !OnCycle(body.graph, body.live, store.point);
    NeverAfter(body.graph, body.live, access, store.point, trace, i, j);
    p :| IsReleasePoint(body, store, p) && Dominates(body.graph, body.live, access, p);
    if p == store.point {
      k := j;
    } else {
      k := MiddleBetween(body.graph, body.live, access, p, store.point, trace, i, j);
    }
  }

  /** The release point that ran at `r` releases for the store that ran at `s`. */
  lemma ReleasePointReleases(u: Unit, x: Execution, flag: string, store: FlagStore, r: Event, s: Event)
    requires WritesFlag(u, x, flag, store, s) && store.functionId in u.bodies
    requires IsOperationOf(u.bodies[store.functionId], store.point)
    requires x.Has(r) && r.activation == s.activation && r.position <= s.position
    requires IsReleasePoint(u.bodies[store.functionId], store, x.PointOf(r))
    requires r.position == s.position || x.PointOf(r) != store.point
    ensures IsReleaseOf(u, x, flag, r, s)
  {
    hide Dominates;
    var body, p := u.bodies[store.functionId], x.PointOf(r);
    if IsReleaseFence(body, store, p) {
      var fence :| fence in body.fences && fence.point == p && IsReleaseOrder(Some(fence.order));
      assert p != store.point;
      assert RunsFence(u, x, fence, r);
    } else {
      assert r == s;
    }
  }

  lemma ReleaseSide(u: Unit, x: Execution, flag: string, a: Event, s: Event) returns (r: Event)
    requires ValidUnit(u) && IsExecution(u, x) && x.Has(a)
    requires IsBeforeRelease(u, flag, x.FunctionOf(a), x.PointOf(a))
    requires WritesFlag(u, x, flag, StoreOf(u, flag), s)
    ensures OrSame(x, a, r) && IsReleaseOf(u, x, flag, r, s)
  {
    hide IsTrace, StandsBefore, ValidBody, IsReleaseOf, IsOperationOf, TrueOrigins, TrueReads, TrueBranches, StartedOnce,
         IsReleasePoint;
    var store := StoreOf(u, flag);
    assert store in u.flags[flag].stores;
    assert ValidStore(u, store);
    OneActivation(u, x, store.functionId, a.activation, s.activation);
    TraceOf(u, x, a.activation);
    var body, trace := u.bodies[store.functionId], x.activations[a.activation].run;
    var p, k := ReleaseFollows(body, store, x.PointOf(a), trace, a.position, s.position);
    r := Event(a.activation, k);
    if k != s.position && p == store.point {
      StoreRunsOnce(body, store, trace, k, s.position);
    }
    ReleasePointReleases(u, x, flag, store, r, s);
  }

  lemma StoreRunsOnce(body: Body, store: FlagStore, trace: seq<Point>, i: nat, j: nat)
    requires ValidBody(body) && IsOperationOf(body, store.point) && store.point.block !in body.inLoops
    requires IsTrace(body.graph, body.live, trace) && i <= j < |trace| && trace[i] == store.point && trace[j] == store.point
    ensures i == j
  {
    hide IsTrace, OnCycle;
    RunsOnce(body.graph, body.live, store.point, trace, i, j);
  }

  /** Along one run, an ordered access on an arm comes after the arm was taken, and after the fence that orders it. */
  lemma ArmBefore(body: Body, arm: Arm, trace: seq<Point>, n: nat) returns (i: nat)
    requires ValidArm(body, arm) && IsTrace(body.graph, body.live, trace) && n < |trace| && trace[n].block in arm.dominated
    ensures i <= n && Crosses(trace, arm.branch, arm.successor, i)
  {
    hide IsTrace, EdgeDominates;
    i := EdgeBefore(body.graph, body.live, arm.branch, arm.successor, trace, n);
  }

  lemma FenceBefore(body: Body, arm: Arm, fence: Fence, trace: seq<Point>, n: nat) returns (k: nat)
    requires IsTrace(body.graph, body.live, trace) && n < |trace| && AfterFence(body, arm, fence, trace[n])
    ensures k <= n && trace[k] == fence.point
  {
    hide IsTrace, Dominates;
    k := DominatorBefore(body.graph, body.live, fence.point, trace, n);
  }

  /** A flag with one store holds its initial value or the published one, so a branch that tells them apart takes the
      published arm only once the load has returned the published constant. */
  lemma ArmTaken(u: Unit, x: Execution, flag: string, load: FlagLoad, arm: Arm, activation: nat, i: nat)
    returns (position: nat)
    requires Publishes(u, flag) && Distinguishes(u, flag) && TrueReads(u, x) && TrueBranches(u, x)
    requires load in u.flags[flag].loads && arm in load.ArmsFor(StoreOf(u, flag).storedValue.value)
    requires activation < |x.activations| && x.activations[activation].functionId == load.functionId
    requires Crosses(x.activations[activation].run, arm.branch, arm.successor, i)
    ensures Returned(x, activation, i, load.point, StoreOf(u, flag).storedValue.value, position)
  {
    hide StartedOnce, Crosses;
    var published := StoreOf(u, flag).storedValue.value;
    var branch := BranchOf(load.branches, published, arm);
    position :| Decided(x, activation, i, load, branch, arm.successor, position);
    var l := Event(activation, position);
    assert x.At(l, load.functionId, load.point);
    assert TrueRead(u, x, flag, l);
    if l in x.readsFrom {
      var store :| WritesFlag(u, x, flag, store, x.readsFrom[l])
                   && (store.isStore && store.storedValue.Some? ==> x.values[l] == store.storedValue.value);
      assert store == StoreOf(u, flag);
    }
  }

  lemma ObservedBefore(u: Unit, x: Execution, flag: string, load: FlagLoad, published: int, arm: Arm, activation: nat,
                       n: nat)
    returns (l: Event)
    requires ValidUnit(u) && IsExecution(u, x) && Publishes(u, flag) && Distinguishes(u, flag)
    requires load in u.flags[flag].loads && published == StoreOf(u, flag).storedValue.value
    requires arm in load.ArmsFor(published) && activation < |x.activations|
    requires x.activations[activation].functionId == load.functionId && n < |x.activations[activation].run|
    requires x.activations[activation].run[n].block in arm.dominated
    ensures x.SequencedBefore(l, Event(activation, n)) && ReadsFlag(u, x, flag, load, l)
    ensures l in x.values && x.values[l] == published
  {
    hide IsTrace, ValidBody, ValidArm, TrueOrigins, TrueReads, TrueBranches, IsRun, IsOperationOf, StartedOnce, Distinguishes,
         FlagLoad.ArmsFor;
    TraceOf(u, x, activation);
    assert ValidLoad(u, load);
    var body, trace := u.bodies[load.functionId], x.activations[activation].run;
    var i := ArmBefore(body, arm, trace, n);
    var position := ArmTaken(u, x, flag, load, arm, activation, i);
    l := Event(activation, position);
  }

  lemma AcquireSide(u: Unit, x: Execution, flag: string, c: Event) returns (load: FlagLoad, l: Event, q: Event)
    requires ValidUnit(u) && IsExecution(u, x) && x.Has(c)
    requires IsAfterAcquire(u, flag, x.FunctionOf(c), x.PointOf(c)) && Distinguishes(u, flag)
    ensures OrSame(x, q, c) && IsAcquireOf(u, x, flag, l, q)
    ensures ReadsFlag(u, x, flag, load, l) && l in x.values && x.values[l] == StoreOf(u, flag).storedValue.value
  {
    hide IsTrace, ValidBody, ValidLoad, TrueOrigins, TrueReads, TrueBranches, IsRun, StartedOnce, FlagLoad.ArmsFor,
         Distinguishes;
    var id, access, published := x.FunctionOf(c), x.PointOf(c), StoreOf(u, flag).storedValue.value;
    var body, trace := u.bodies[id], x.activations[c.activation].run;
    load :| load in u.flags[flag].loads && load.functionId == id && OrderedAfterLoad(body, load, published, access);
    OrderedOnSomeArm(body, load, published, access);
    var arm :| arm in load.ArmsFor(published) && OrderedOnArm(body, load, arm, access);
    if IsAcquireOrder(load.order) {
      l := ObservedBefore(u, x, flag, load, published, arm, c.activation, c.position);
      q := l;
    } else {
      var fence :| AfterFence(body, arm, fence, access);
      TraceOf(u, x, c.activation);
      var k := FenceBefore(body, arm, fence, trace, c.position);
      l := ObservedBefore(u, x, flag, load, published, arm, c.activation, k);
      q := Event(c.activation, k);
      assert RunsFence(u, x, fence, q);
    }
  }

  /** Returning the published constant, the load read the one store. */
  lemma ReadTheStore(u: Unit, x: Execution, flag: string, load: FlagLoad, l: Event)
    requires TrueReads(u, x) && Publishes(u, flag) && ReadsFlag(u, x, flag, load, l)
    requires l in x.values && x.values[l] == StoreOf(u, flag).storedValue.value
    ensures l in x.readsFrom && WritesFlag(u, x, flag, StoreOf(u, flag), x.readsFrom[l])
  {
    hide StartedOnce;
    assert TrueRead(u, x, flag, l);
    if l in x.readsFrom {
      var store :| WritesFlag(u, x, flag, store, x.readsFrom[l]);
      assert store in u.flags[flag].stores;
    }
  }

  /** In every execution, what is tagged before the flag's release happens before what is tagged after its acquire. */
  lemma PublicationOrders(u: Unit, x: Execution, flag: string, a: Event, c: Event)
    requires ValidUnit(u) && IsExecution(u, x) && x.Has(a) && x.Has(c)
    requires IsBeforeRelease(u, flag, x.FunctionOf(a), x.PointOf(a))
    requires IsAfterAcquire(u, flag, x.FunctionOf(c), x.PointOf(c)) && Distinguishes(u, flag)
    ensures HappensBefore(u, x, a, c)
  {
    hide IsReleaseOf, IsAcquireOf, ValidUnit, StandsBefore, StartedOnce, OrderedAfterLoad, TrueReads, TrueBranches, Distinguishes,
         TrueOrigins, HappensBefore;
    var load, l, q := AcquireSide(u, x, flag, c);
    ReadTheStore(u, x, flag, load, l);
    var s := x.readsFrom[l];
    var r := ReleaseSide(u, x, flag, a, s);
    assert Observes(u, x, flag, s, l);
    assert SynchronizesWith(u, x, r, q);
    ThroughSynchronization(u, x, a, r, q, c);
  }

  /** The tags of an access fact are those of its instruction. */
  ghost predicate TrueTags(u: Unit, access: DataRaces.AccessFact, id: string, p: Point) {
    && (forall flag | flag in access.beforeRelease :: IsBeforeRelease(u, flag, id, p))
    && (forall flag | flag in access.afterAcquire :: IsAfterAcquire(u, flag, id, p))
  }

  /** A pair the race checker drops as ordered by a publication is ordered in every execution, each run of the one
      access against each run of the other. */
  lemma DroppedPairsAreOrdered(u: Unit, x: Execution, lhs: DataRaces.AccessFact, rhs: DataRaces.AccessFact, a: Event,
                               b: Event)
    requires ValidUnit(u) && IsExecution(u, x) && x.Has(a) && x.Has(b)
    requires TrueTags(u, lhs, x.FunctionOf(a), x.PointOf(a)) && TrueTags(u, rhs, x.FunctionOf(b), x.PointOf(b))
    requires DataRaces.OrderedByPublication(lhs, rhs) && forall flag :: Distinguishes(u, flag)
    ensures HappensBefore(u, x, a, b) || HappensBefore(u, x, b, a)
  {
    hide ValidUnit, IsExecution, IsBeforeRelease, IsAfterAcquire, HappensBefore, Distinguishes;
    if lhs.beforeRelease * rhs.afterAcquire != {} {
      var flag :| flag in lhs.beforeRelease * rhs.afterAcquire;
      PublicationOrders(u, x, flag, a, b);
    } else {
      var flag :| flag in rhs.beforeRelease * lhs.afterAcquire;
      PublicationOrders(u, x, flag, b, a);
    }
  }
}
