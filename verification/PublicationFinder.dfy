/** The finder: it tags exactly the accesses a publication orders. */
module PublicationFinder {
  import opened ControlFlow
  import opened LiveDominance
  import opened Publication
  import Strings

  method RunsAtMostOnce(u: Unit, id: string) returns (once: bool)
    ensures once <==> StartedOnce(u, id)
  {
    for i := 0 to |u.callees|
      invariant forall k | 0 <= k < i :: u.callees[k] != id
    {
      if u.callees[i] == id {
        return false;
      }
    }
    var starts := 0;
    ghost var first := 0;
    for i := 0 to |u.spawns|
      invariant 0 <= starts
      invariant starts == 0 ==> forall k: nat | k < i :: u.spawns[k].entryFunctionId != id
      invariant starts > 0 ==> 0 <= first < i && u.spawns[first].entryFunctionId == id && !u.spawns[first].insideLoop
                               && u.spawns[first].spawner == "main"
      invariant starts == 1 ==> forall k: nat | k < i && k != first :: u.spawns[k].entryFunctionId != id
      invariant starts > 1 ==> exists k: nat :: k < i && k != first && u.spawns[k].entryFunctionId == id
    {
      if u.spawns[i].entryFunctionId == id {
        if u.spawns[i].insideLoop || u.spawns[i].spawner != "main" {
          assert u.spawns[i].entryFunctionId == id;
          return false;
        }
        first := if starts == 0 then i else first;
        starts := starts + 1;
      }
    }
    once := starts == 1;
    assert once ==> StartsOnce(u, id, first);
  }

  /** The releasing places of the publishing store. */
  method ReleasePoints(body: Body, store: FlagStore) returns (points: seq<Point>)
    requires ValidBody(body) && IsOperationOf(body, store.point) && store.order.Some?
    ensures forall p :: p in points <==> IsReleasePoint(body, store, p)
  {
    hide Dominates, Reached;
    assert Reached(body.graph, body.live, store.point) by {
      LiveIsReached(body.graph, body.taken, body.live, store.point);
    }
    points := if ReleasesAtLeast(store.order.value) then [store.point] else [];
    ghost var own := points;
    for i := 0 to |body.fences|
      invariant forall p :: p in points <==> p in own || IsReleaseFenceAmong(body, store, p, i)
    {
      var fence := body.fences[i];
      assert fence in body.fences;
      if ReleasesAtLeast(fence.order) {
        var dominates := LiveDominates(body.graph, body.live, fence.point, store.point);
        if dominates {
          points := points + [fence.point];
        }
      }
    }
    assert forall p :: IsReleaseFenceAmong(body, store, p, |body.fences|) <==> IsReleaseFence(body, store, p);
  }

  ghost predicate IsReleaseFenceAmong(body: Body, store: FlagStore, p: Point, n: nat) {
    && (exists k: nat | k < n && k < |body.fences| :: body.fences[k].point == p && IsReleaseOrder(Some(body.fences[k].order)))
    && Dominates(body.graph, body.live, p, store.point)
  }

  /** The flag's store, when observing its constant proves it was the one read. */
  method FindPublication(u: Unit, flag: string) returns (publishes: bool)
    requires ValidUnit(u) && flag in u.flags
    ensures publishes <==> Publishes(u, flag)
  {
    hide StartedOnce, ValidBody, IsOperationOf;
    var operations := u.flags[flag];
    if |operations.stores| != 1 || flag in u.plainlyStored {
      return false;
    }
    var store := operations.stores[0];
    assert store in operations.stores;
    assert ValidStore(u, store);
    if !store.isStore || store.order.None? || store.storedValue.None? || operations.initialValue.None?
       || store.storedValue.value == operations.initialValue.value
    {
      return false;
    }
    if store.point.block in u.bodies[store.functionId].inLoops {
      return false;
    }
    publishes := RunsAtMostOnce(u, store.functionId);
  }

  /** The publishing thread's accesses, those that stand before a release point. */
  method PublishedAccesses(body: Body, store: FlagStore, releasePoints: seq<Point>) returns (ordered: set<Point>)
    requires ValidBody(body) && IsOperationOf(body, store.point)
    requires forall p :: p in releasePoints <==> IsReleasePoint(body, store, p)
    ensures forall p :: p in ordered <==> p in body.accesses && StandsBefore(body, store, p)
  {
    hide StandsBefore, IsReleasePoint;
    ordered := {};
    for i := 0 to |body.accesses|
      invariant forall p :: p in ordered <==> p in body.accesses[..i] && StandsBefore(body, store, p)
    {
      var access := body.accesses[i];
      assert access in body.accesses && body.accesses[..i + 1] == body.accesses[..i] + [access];
      var before := IsPublished(body, store, releasePoints, access);
      if before {
        ordered := ordered + {access};
      }
    }
    assert body.accesses[..|body.accesses|] == body.accesses;
  }

  lemma ReleasePointReached(body: Body, store: FlagStore, p: Point)
    requires ValidBody(body) && IsOperationOf(body, store.point) && IsReleasePoint(body, store, p)
    ensures body.graph.Contains(p) && Reached(body.graph, body.live, p)
  {
    hide Dominates, Reached;
    LiveIsReached(body.graph, body.taken, body.live, p);
  }

  method IsPublished(body: Body, store: FlagStore, releasePoints: seq<Point>, access: Point) returns (ordered: bool)
    requires ValidBody(body) && IsOperationOf(body, store.point) && body.graph.Contains(access)
    requires forall p :: p in releasePoints <==> IsReleasePoint(body, store, p)
    ensures ordered <==> StandsBefore(body, store, access)
  {
    hide Dominates, Reached, IsReleasePoint;
    assert Reached(body.graph, body.live, store.point) by {
      LiveIsReached(body.graph, body.taken, body.live, store.point);
    }
    var dominates := LiveDominates(body.graph, body.live, access, store.point);
    if !dominates {
      return false;
    }
    ordered := false;
    for i := 0 to |releasePoints|
      invariant ordered <==> exists k: nat | k < i :: Dominates(body.graph, body.live, access, releasePoints[k])
    {
      assert releasePoints[i] in releasePoints;
      ReleasePointReached(body, store, releasePoints[i]);
      var reached := LiveDominates(body.graph, body.live, access, releasePoints[i]);
      ordered := ordered || reached;
    }
    if p :| p in releasePoints && Dominates(body.graph, body.live, access, p) {
      var k: nat :| k < |releasePoints| && releasePoints[k] == p;
      assert ordered;
    }
    assert forall k: nat | k < |releasePoints| :: releasePoints[k] in releasePoints;
  }

  /** Whether a fence on the arm comes before the access on every run. */
  method AfterSomeFence(body: Body, arm: Arm, access: Point) returns (after: bool)
    requires ValidBody(body) && body.graph.Contains(access)
    ensures after <==> exists fence :: AfterFence(body, arm, fence, access)
  {
    hide Dominates, Reached;
    if access.block in body.live {
      LiveIsReached(body.graph, body.taken, body.live, access);
    }
    after := false;
    for i := 0 to |body.fences|
      invariant after ==> exists fence :: AfterFence(body, arm, fence, access)
      invariant !after ==> forall k: nat | k < i :: !AfterFence(body, arm, body.fences[k], access)
    {
      var fence := body.fences[i];
      assert fence in body.fences;
      if AcquiresAtLeast(fence.order) && fence.point.block in arm.dominated {
        var dominates := LiveDominates(body.graph, body.live, fence.point, access);
        if dominates {
          assert AfterFence(body, arm, fence, access);
          after := true;
        }
      }
    }
  }

  /** The reader's accesses that an acquire orders, on the arms the published constant opens: all of them. */
  method ObservingAccesses(body: Body, load: FlagLoad, published: int) returns (ordered: set<Point>)
    requires ValidBody(body)
    ensures forall p :: p in ordered <==> p in body.accesses && OrderedAfterLoad(body, load, published, p)
  {
    hide OrderedOnArm, ValidBody, OrderedAfterLoad, FlagLoad.ArmsFor;
    forall p
      ensures OrderedAfterLoad(body, load, published, p)
         <==> exists arm :: arm in load.ArmsFor(published) && OrderedOnArm(body, load, arm, p)
    {
      OrderedOnSomeArm(body, load, published, p);
    }
    ordered := {};
    if load.order.None? {
      assert forall arm, p :: !OrderedOnArm(body, load, arm, p) by {
        NoOrderNoAccess(body, load);
      }
      return;
    }
    var arms := load.ArmsFor(published);
    for i := 0 to |arms|
      invariant forall p | p in ordered :: p in body.accesses && OrderedAfterLoad(body, load, published, p)
      invariant forall p, k: nat | p in body.accesses && k < i && OrderedOnArm(body, load, arms[k], p) ::
                  p in ordered
    {
      assert arms[i] in arms;
      var onArm := AccessesOnArm(body, load, arms[i]);
      ordered := ordered + onArm;
    }
  }

  lemma NoOrderNoAccess(body: Body, load: FlagLoad)
    requires load.order.None?
    ensures forall arm, p :: !OrderedOnArm(body, load, arm, p)
  {
  }

  method AccessesOnArm(body: Body, load: FlagLoad, arm: Arm) returns (ordered: set<Point>)
    requires ValidBody(body) && load.order.Some?
    ensures forall p :: p in ordered <==> p in body.accesses && OrderedOnArm(body, load, arm, p)
  {
    hide AfterFence;
    ordered := {};
    for i := 0 to |body.accesses|
      invariant forall p | p in ordered :: p in body.accesses && OrderedOnArm(body, load, arm, p)
      invariant forall k: nat | k < i && OrderedOnArm(body, load, arm, body.accesses[k]) ::
                  body.accesses[k] in ordered
    {
      var access := body.accesses[i];
      assert access in body.accesses;
      if access.block in arm.dominated {
        var after := AfterSomeFence(body, arm, access);
        if AcquiresAtLeast(load.order.value) || after {
          ordered := ordered + {access};
        }
      }
    }
  }

  datatype Tag = Tag(flag: string, functionId: string, point: Point)

  function Tagged(flag: string, id: string, points: set<Point>): set<Tag> {
    set p | p in points :: Tag(flag, id, p)
  }

  /** The accesses before the release of one flag's publication. */
  method TagPublisher(u: Unit, flag: string) returns (before: set<Tag>)
    requires ValidUnit(u) && Publishes(u, flag)
    ensures forall tag :: tag in before <==> tag.flag == flag && IsBeforeRelease(u, flag, tag.functionId, tag.point)
  {
    hide ValidBody, IsOperationOf, StandsBefore, IsReleasePoint, StartedOnce;
    var store := StoreOf(u, flag);
    assert store in u.flags[flag].stores;
    assert ValidStore(u, store);
    var body := u.bodies[store.functionId];
    var releasePoints := ReleasePoints(body, store);
    var ordered := PublishedAccesses(body, store, releasePoints);
    before := Tagged(flag, store.functionId, ordered);
  }

  /** Some load among the first `n` tags the access. */
  ghost predicate TaggedBy(u: Unit, flag: string, n: nat, id: string, access: Point)
    requires flag in u.flags && |u.flags[flag].stores| == 1
  {
    && id in u.bodies && access in u.bodies[id].accesses && id != StoreOf(u, flag).functionId
    && StoreOf(u, flag).storedValue.Some?
    && exists k: nat | k < n && k < |u.flags[flag].loads| ::
         u.flags[flag].loads[k].functionId == id
         && OrderedAfterLoad(u.bodies[id], u.flags[flag].loads[k], StoreOf(u, flag).storedValue.value, access)
  }

  /** The accesses after an acquire that observed one flag's publication. */
  method TagReaders(u: Unit, flag: string) returns (after: set<Tag>)
    requires ValidUnit(u) && Publishes(u, flag)
    ensures forall tag :: tag in after <==> tag.flag == flag && IsAfterAcquire(u, flag, tag.functionId, tag.point)
  {
    hide ValidBody, OrderedAfterLoad, StartedOnce, ValidStore;
    var store, loads := StoreOf(u, flag), u.flags[flag].loads;
    after := {};
    for i := 0 to |loads|
      invariant forall tag :: tag in after <==> tag.flag == flag && TaggedBy(u, flag, i, tag.functionId, tag.point)
    {
      var load := loads[i];
      assert load in loads;
      assert ValidLoad(u, load);
      if load.functionId != store.functionId {
        var ordered := ObservingAccesses(u.bodies[load.functionId], load, store.storedValue.value);
        after := after + Tagged(flag, load.functionId, ordered);
      }
    }
    forall id, p | IsAfterAcquire(u, flag, id, p)
      ensures TaggedBy(u, flag, |loads|, id, p)
    {
      var load :| load in loads && load.functionId == id
                  && OrderedAfterLoad(u.bodies[id], load, store.storedValue.value, p);
      var k: nat :| k < |loads| && loads[k] == load;
    }
    assert forall k: nat | k < |loads| :: loads[k] in loads;
  }

  /** Tags every access of the unit, for every flag that publishes: exactly those before its release and after an
      acquire that observed it. */
  method Analyze(u: Unit) returns (before: set<Tag>, after: set<Tag>)
    requires ValidUnit(u)
    ensures forall tag :: tag in before <==> IsBeforeRelease(u, tag.flag, tag.functionId, tag.point)
    ensures forall tag :: tag in after <==> IsAfterAcquire(u, tag.flag, tag.functionId, tag.point)
  {
    hide ValidUnit, StandsBefore, OrderedAfterLoad, StartedOnce;
    before, after := {}, {};
    var flags := Strings.Sorted(u.flags.Keys);
    for i := 0 to |flags|
      invariant forall tag :: tag in before <==> tag.flag in flags[..i] && IsBeforeRelease(u, tag.flag, tag.functionId, tag.point)
      invariant forall tag :: tag in after <==> tag.flag in flags[..i] && IsAfterAcquire(u, tag.flag, tag.functionId, tag.point)
    {
      var flag := flags[i];
      assert flag in flags && flags[..i + 1] == flags[..i] + [flag];
      hide Publishes, IsBeforeRelease, IsAfterAcquire;
      var publishes := FindPublication(u, flag);
      if publishes {
        var published := TagPublisher(u, flag);
        var observed := TagReaders(u, flag);
        before, after := before + published, after + observed;
      } else {
        NoPublicationNoTag(u, flag);
      }
    }
    assert flags[..|flags|] == flags;
  }

  lemma NoPublicationNoTag(u: Unit, flag: string)
    requires !Publishes(u, flag)
    ensures forall id, p :: !IsBeforeRelease(u, flag, id, p)
    ensures forall id, p :: !IsAfterAcquire(u, flag, id, p)
  {
  }
}
