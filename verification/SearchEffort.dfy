/** What the share of a walk counts: the partial choices of orders from its start that the walk has to look at. */
module SearchEffort {
  import opened Facts
  import opened LockCycles
  import opened LockGraphs
  import opened CycleSearch

  /** One order of the graph, by its place: which successor of its lock, and which of the orders to it. */
  type Place = (nat, nat)

  predicate IsPlace(graph: LockGraph, lock: nat, place: Place) {
    lock < |graph| && place.0 < |graph[lock]| && place.1 < |graph[lock][place.0].orders|
  }

  /** The places of a partial choice that continues `path` from `lock`: each goes to the start or to a lock that leads
      back and is not met yet, and all but the last go on: not to the start, and in parallel with all before. */
  ghost predicate IsPartialChoice(scene: Scene, path: Cycle, onPath: seq<bool>, lock: nat, places: seq<Place>)
    requires scene.Valid() && |onPath| == |scene.graph|
    decreases |places|
  {
    && places != [] && IsPlace(scene.graph, lock, places[0])
    && var successor := scene.graph[lock][places[0].0];
       && scene.Goes(onPath, successor.lock)
       && (|places| > 1 ==>
             && successor.lock != scene.start && ParallelWithEach(path, successor.orders[places[0].1], scene.facts)
             && IsPartialChoice(scene, path + [successor.orders[places[0].1]], onPath[successor.lock := true],
                                successor.lock, places[1..]))
  }

  ghost function Prefixed(place: Place, choices: set<seq<Place>>): set<seq<Place>> {
    set places | places in choices :: [place] + places
  }

  lemma InPrefixed(place: Place, choices: set<seq<Place>>, places: seq<Place>)
    ensures places in Prefixed(place, choices) <==> places != [] && places[0] == place && places[1..] in choices
  {
    if places != [] && places[0] == place {
      assert places == [place] + places[1..];
    }
    forall rest | rest in choices
      ensures ([place] + rest)[1..] == rest
    {
    }
  }

  lemma {:induction false} PrefixedSize(place: Place, choices: set<seq<Place>>)
    ensures |Prefixed(place, choices)| == |choices|
  {
    if choices != {} {
      var places :| places in choices;
      PrefixedSize(place, choices - {places});
      assert [place] + places !in Prefixed(place, choices - {places}) by {
        forall other | other in choices - {places}
          ensures [place] + other != [place] + places
        {
          assert ([place] + other)[1..] == other && ([place] + places)[1..] == places;
        }
      }
      assert Prefixed(place, choices) == Prefixed(place, choices - {places}) + {[place] + places};
    }
  }

  ghost function PastChoices(scene: Scene, path: Cycle, onPath: seq<bool>, order: LockOrderFact, target: nat): set<seq<Place>>
    requires scene.Valid() && |onPath| == |scene.graph| && target < |onPath| && scene.Goes(onPath, target)
    decreases UnmetOf(onPath), 0, 0
  {
    if target == scene.start || !ParallelWithEach(path, order, scene.facts) then {}
    else
      UnmetShrinks(onPath, target);
      RowChoices(scene, path + [order], onPath[target := true], target, |scene.graph[target]|)
  }

  ghost function OrderChoices(scene: Scene, path: Cycle, onPath: seq<bool>, lock: nat, j: nat, k: nat): set<seq<Place>>
    requires scene.Valid() && |onPath| == |scene.graph| && lock < |scene.graph| && j < |scene.graph[lock]|
    requires k <= |scene.graph[lock][j].orders| && scene.Goes(onPath, scene.graph[lock][j].lock)
    decreases UnmetOf(onPath), 1, k
  {
    if k == 0 then {}
    else
      var successor := scene.graph[lock][j];
      OrderChoices(scene, path, onPath, lock, j, k - 1) + {[(j, k - 1)]}
      + Prefixed((j, k - 1), PastChoices(scene, path, onPath, successor.orders[k - 1], successor.lock))
  }

  ghost function RowChoices(scene: Scene, path: Cycle, onPath: seq<bool>, lock: nat, n: nat): set<seq<Place>>
    requires scene.Valid() && |onPath| == |scene.graph| && lock < |scene.graph| && n <= |scene.graph[lock]|
    decreases UnmetOf(onPath), 2, n
  {
    if n == 0 then {}
    else
      var successor := scene.graph[lock][n - 1];
      RowChoices(scene, path, onPath, lock, n - 1)
      + if scene.Goes(onPath, successor.lock)
        then OrderChoices(scene, path, onPath, lock, n - 1, |successor.orders|) else {}
  }

  // ----- which choices -----------------------------------------------------------------------------

  lemma PastAre(scene: Scene, path: Cycle, onPath: seq<bool>, order: LockOrderFact, target: nat, rest: seq<Place>)
    requires scene.Valid() && |onPath| == |scene.graph| && target < |onPath| && scene.Goes(onPath, target)
    ensures rest in PastChoices(scene, path, onPath, order, target)
       <==> && target != scene.start && ParallelWithEach(path, order, scene.facts)
            && IsPartialChoice(scene, path + [order], onPath[target := true], target, rest)
    decreases UnmetOf(onPath), 0, 0
  {
    hide IsPartialChoice, ParallelWithEach;
    if target != scene.start && ParallelWithEach(path, order, scene.facts) {
      UnmetShrinks(onPath, target);
      var n := |scene.graph[target]|;
      RowsAre(scene, path + [order], onPath[target := true], target, n, rest);
      ChoiceIsInRow(scene, path + [order], onPath[target := true], target, rest);
    }
  }

  lemma ChoiceIsInRow(scene: Scene, path: Cycle, onPath: seq<bool>, lock: nat, places: seq<Place>)
    requires scene.Valid() && |onPath| == |scene.graph| && lock < |scene.graph|
    ensures IsPartialChoice(scene, path, onPath, lock, places) ==> places != [] && places[0].0 < |scene.graph[lock]|
  {
  }

  /** A choice is among those of the first `k` orders to a successor exactly when it starts with one of them. */
  lemma OrdersAre(scene: Scene, path: Cycle, onPath: seq<bool>, lock: nat, j: nat, k: nat, places: seq<Place>)
    requires scene.Valid() && |onPath| == |scene.graph| && lock < |scene.graph| && j < |scene.graph[lock]|
    requires k <= |scene.graph[lock][j].orders| && scene.Goes(onPath, scene.graph[lock][j].lock)
    ensures places in OrderChoices(scene, path, onPath, lock, j, k)
       <==> IsPartialChoice(scene, path, onPath, lock, places) && places[0].0 == j && places[0].1 < k
    decreases UnmetOf(onPath), 1, k
  {
    if k > 0 {
      OrdersAre(scene, path, onPath, lock, j, k - 1, places);
      var successor := scene.graph[lock][j];
      if places != [] {
        PastAre(scene, path, onPath, successor.orders[k - 1], successor.lock, places[1..]);
      }
      PastAre(scene, path, onPath, successor.orders[k - 1], successor.lock, []);
      LastOrderIs(scene, path, onPath, lock, j, k, places);
    } else {
      ChoiceIsInRow(scene, path, onPath, lock, places);
    }
  }

  lemma LastOrderIs(scene: Scene, path: Cycle, onPath: seq<bool>, lock: nat, j: nat, k: nat, places: seq<Place>)
    requires scene.Valid() && |onPath| == |scene.graph| && lock < |scene.graph| && j < |scene.graph[lock]|
    requires 0 < k <= |scene.graph[lock][j].orders| && scene.Goes(onPath, scene.graph[lock][j].lock)
    requires var successor := scene.graph[lock][j];
             places != [] ==> (
               places[1..] in PastChoices(scene, path, onPath, successor.orders[k - 1], successor.lock)
               <==> && successor.lock != scene.start && ParallelWithEach(path, successor.orders[k - 1], scene.facts)
                    && IsPartialChoice(scene, path + [successor.orders[k - 1]], onPath[successor.lock := true],
                                       successor.lock, places[1..]))
    requires var successor := scene.graph[lock][j];
             [] !in PastChoices(scene, path, onPath, successor.orders[k - 1], successor.lock)
    ensures var successor := scene.graph[lock][j];
            places in {[(j, k - 1)]} + Prefixed((j, k - 1), PastChoices(scene, path, onPath, successor.orders[k - 1], successor.lock))
            <==> IsPartialChoice(scene, path, onPath, lock, places) && places[0] == (j, k - 1)
  {
    hide PastChoices, ParallelWithEach;
    var successor := scene.graph[lock][j];
    var past := PastChoices(scene, path, onPath, successor.orders[k - 1], successor.lock);
    InPrefixed((j, k - 1), past, places);
    if places != [] && places[0] == (j, k - 1) {
      assert places == [(j, k - 1)] + places[1..];
      if |places| == 1 {
        assert places == [(j, k - 1)];
      }
    }
  }

  /** A choice is among those of the first `n` successors exactly when it starts with one of them. */
  lemma RowsAre(scene: Scene, path: Cycle, onPath: seq<bool>, lock: nat, n: nat, places: seq<Place>)
    requires scene.Valid() && |onPath| == |scene.graph| && lock < |scene.graph| && n <= |scene.graph[lock]|
    ensures places in RowChoices(scene, path, onPath, lock, n)
       <==> IsPartialChoice(scene, path, onPath, lock, places) && places[0].0 < n
    decreases UnmetOf(onPath), 2, n
  {
    if n == 0 {
      ChoiceIsInRow(scene, path, onPath, lock, places);
    } else {
      RowsAre(scene, path, onPath, lock, n - 1, places);
      var successor := scene.graph[lock][n - 1];
      if scene.Goes(onPath, successor.lock) {
        OrdersAre(scene, path, onPath, lock, n - 1, |successor.orders|, places);
      }
      hide RowChoices, OrderChoices;
      LastRowIs(scene, path, onPath, lock, n);
    }
  }

  lemma LastRowIs(scene: Scene, path: Cycle, onPath: seq<bool>, lock: nat, n: nat)
    requires scene.Valid() && |onPath| == |scene.graph| && lock < |scene.graph| && 0 < n <= |scene.graph[lock]|
    ensures var successor := scene.graph[lock][n - 1];
            RowChoices(scene, path, onPath, lock, n)
              == RowChoices(scene, path, onPath, lock, n - 1)
                 + if scene.Goes(onPath, successor.lock)
                   then OrderChoices(scene, path, onPath, lock, n - 1, |successor.orders|) else {}
  {
    hide OrderChoices;
  }

  // ----- how many ----------------------------------------------------------------------------------

  lemma DisjointSize<T>(a: set<T>, b: set<T>)
    requires a !! b
    ensures |a + b| == |a| + |b|
  {
  }

  lemma PastCount(scene: Scene, path: Cycle, onPath: seq<bool>, order: LockOrderFact, target: nat)
    requires scene.Valid() && |onPath| == |scene.graph| && target < |onPath| && scene.Goes(onPath, target)
    ensures |PastChoices(scene, path, onPath, order, target)| == EffortPast(scene, path, onPath, order, target)
    decreases UnmetOf(onPath), 0, 0
  {
    hide ParallelWithEach;
    if target != scene.start && ParallelWithEach(path, order, scene.facts) {
      UnmetShrinks(onPath, target);
      RowsCount(scene, path + [order], onPath[target := true], target, |scene.graph[target]|);
    }
  }

  lemma OrdersCount(scene: Scene, path: Cycle, onPath: seq<bool>, lock: nat, j: nat, k: nat)
    requires scene.Valid() && |onPath| == |scene.graph| && lock < |scene.graph| && j < |scene.graph[lock]|
    requires k <= |scene.graph[lock][j].orders| && scene.Goes(onPath, scene.graph[lock][j].lock)
    ensures |OrderChoices(scene, path, onPath, lock, j, k)| == EffortOrders(scene, path, onPath, scene.graph[lock][j], k)
    decreases UnmetOf(onPath), 1, k
  {
    hide PastChoices, EffortPast, OrderChoices, EffortOrders, Prefixed, IsPartialChoice;
    if k == 0 {
      NoOrderChoices(scene, path, onPath, lock, j);
    } else {
      var successor := scene.graph[lock][j];
      var before := OrderChoices(scene, path, onPath, lock, j, k - 1);
      var past := PastChoices(scene, path, onPath, successor.orders[k - 1], successor.lock);
      var last := Prefixed((j, k - 1), past);
      OrdersCount(scene, path, onPath, lock, j, k - 1);
      PastCount(scene, path, onPath, successor.orders[k - 1], successor.lock);
      PrefixedSize((j, k - 1), past);
      OrdersApart(scene, path, onPath, lock, j, k, past);
      OneOrderMore(scene, path, onPath, lock, j, k);
      EffortOneOrder(scene, path, onPath, successor, k - 1);
      DisjointSize(before, {[(j, k - 1)]});
      DisjointSize(before + {[(j, k - 1)]}, last);
    }
  }

  lemma NoOrderChoices(scene: Scene, path: Cycle, onPath: seq<bool>, lock: nat, j: nat)
    requires scene.Valid() && |onPath| == |scene.graph| && lock < |scene.graph| && j < |scene.graph[lock]|
    requires scene.Goes(onPath, scene.graph[lock][j].lock)
    ensures OrderChoices(scene, path, onPath, lock, j, 0) == {}
    ensures EffortOrders(scene, path, onPath, scene.graph[lock][j], 0) == 0
  {
  }

  lemma OneOrderMore(scene: Scene, path: Cycle, onPath: seq<bool>, lock: nat, j: nat, k: nat)
    requires scene.Valid() && |onPath| == |scene.graph| && lock < |scene.graph| && j < |scene.graph[lock]|
    requires 0 < k <= |scene.graph[lock][j].orders| && scene.Goes(onPath, scene.graph[lock][j].lock)
    ensures var successor := scene.graph[lock][j];
            OrderChoices(scene, path, onPath, lock, j, k)
              == OrderChoices(scene, path, onPath, lock, j, k - 1) + {[(j, k - 1)]}
                 + Prefixed((j, k - 1), PastChoices(scene, path, onPath, successor.orders[k - 1], successor.lock))
  {
    hide PastChoices, Prefixed;
  }

  /** What starts with the last order is apart from what starts with those before, and goes on past it. */
  lemma OrdersApart(scene: Scene, path: Cycle, onPath: seq<bool>, lock: nat, j: nat, k: nat, past: set<seq<Place>>)
    requires scene.Valid() && |onPath| == |scene.graph| && lock < |scene.graph| && j < |scene.graph[lock]|
    requires 0 < k <= |scene.graph[lock][j].orders| && scene.Goes(onPath, scene.graph[lock][j].lock)
    requires past == PastChoices(scene, path, onPath, scene.graph[lock][j].orders[k - 1], scene.graph[lock][j].lock)
    ensures OrderChoices(scene, path, onPath, lock, j, k - 1) !! {[(j, k - 1)]}
    ensures OrderChoices(scene, path, onPath, lock, j, k - 1) + {[(j, k - 1)]} !! Prefixed((j, k - 1), past)
  {
    hide PastChoices, OrderChoices, Prefixed, ParallelWithEach;
    PastAre(scene, path, onPath, scene.graph[lock][j].orders[k - 1], scene.graph[lock][j].lock, []);
    var before, last := OrderChoices(scene, path, onPath, lock, j, k - 1), Prefixed((j, k - 1), past);
    forall places | places in before
      ensures places != [(j, k - 1)] && places !in last
    {
      OrdersAre(scene, path, onPath, lock, j, k - 1, places);
      InPrefixed((j, k - 1), past, places);
    }
    InPrefixed((j, k - 1), past, [(j, k - 1)]);
    assert [(j, k - 1)][1..] == [];
  }

  lemma RowsCount(scene: Scene, path: Cycle, onPath: seq<bool>, lock: nat, n: nat)
    requires scene.Valid() && |onPath| == |scene.graph| && lock < |scene.graph| && n <= |scene.graph[lock]|
    ensures |RowChoices(scene, path, onPath, lock, n)| == EffortRows(scene, path, onPath, lock, n)
    decreases UnmetOf(onPath), 2, n
  {
    hide OrderChoices, EffortOrders, RowChoices, EffortRows, IsPartialChoice;
    if n == 0 {
      NoRowChoices(scene, path, onPath, lock);
    } else {
      RowsCount(scene, path, onPath, lock, n - 1);
      EffortOneRow(scene, path, onPath, lock, n - 1);
      LastRowIs(scene, path, onPath, lock, n);
      var successor := scene.graph[lock][n - 1];
      if scene.Goes(onPath, successor.lock) {
        var before := RowChoices(scene, path, onPath, lock, n - 1);
        var last := OrderChoices(scene, path, onPath, lock, n - 1, |successor.orders|);
        OrdersCount(scene, path, onPath, lock, n - 1, |successor.orders|);
        forall places | places in before
          ensures places !in last
        {
          RowsAre(scene, path, onPath, lock, n - 1, places);
          OrdersAre(scene, path, onPath, lock, n - 1, |successor.orders|, places);
        }
        DisjointSize(before, last);
      } else {
        assert RowChoices(scene, path, onPath, lock, n) == RowChoices(scene, path, onPath, lock, n - 1);
      }
    }
  }

  lemma NoRowChoices(scene: Scene, path: Cycle, onPath: seq<bool>, lock: nat)
    requires scene.Valid() && |onPath| == |scene.graph| && lock < |scene.graph|
    ensures RowChoices(scene, path, onPath, lock, 0) == {} && EffortRows(scene, path, onPath, lock, 0) == 0
  {
  }

  /** The partial choices from `start`, by the places of their orders. */
  ghost predicate IsPartialChoiceFrom(graph: LockGraph, facts: EntryFacts, start: nat, places: seq<Place>)
    requires InRange(graph)
  {
    IsPartialChoice(SceneFrom(graph, facts, start), [], seq(|graph|, _ => false), start, places)
  }

  /** The work of the walk from a lock is the number of its partial choices. */
  lemma EffortCounts(graph: LockGraph, facts: EntryFacts, start: nat) returns (choices: set<seq<Place>>)
    requires InRange(graph) && start < |graph|
    ensures forall places :: places in choices <==> IsPartialChoiceFrom(graph, facts, start, places)
    ensures |choices| == Effort(graph, facts, start)
  {
    hide RowChoices, EffortRows, IsPartialChoice;
    var scene, onPath := SceneFrom(graph, facts, start), seq(|graph|, _ => false);
    choices := RowChoices(scene, [], onPath, start, |graph[start]|);
    RowsCount(scene, [], onPath, start, |graph[start]|);
    forall places
      ensures places in choices <==> IsPartialChoiceFrom(graph, facts, start, places)
    {
      RowsAre(scene, [], onPath, start, |graph[start]|, places);
      ChoiceIsInRow(scene, [], onPath, start, places);
    }
  }
}
