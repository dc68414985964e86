/** A branch that goes one way for both values of a flag: its tags order nothing. */
module PublicationLimits {
  import opened ControlFlow
  import opened LiveDominance
  import opened Publication

  // ----- functions without a way back --------------------------------------------------------------

  ghost predicate Forward(f: Function) {
    forall b, k | 0 <= b < |f.blocks| && 0 <= k < |f.blocks[b].successors| :: b < f.blocks[b].successors[k]
  }

  lemma {:induction false} ForwardRises(f: Function, live: set<nat>, path: seq<Point>, n: nat)
    requires Forward(f) && Steps(f, live, path) && 0 < n < |path|
    ensures path[0].block < path[n].block || (path[0].block == path[n].block && path[0].index < path[n].index)
  {
    assert Step(f, live, path[n - 1], path[n]);
    if n > 1 {
      ForwardRises(f, live, path, n - 1);
    }
  }

  lemma ForwardIsOffCycles(f: Function, live: set<nat>, p: Point)
    requires Forward(f)
    ensures !OnCycle(f, live, p)
  {
    forall path: seq<Point> | Steps(f, live, path) && |path| > 1 && path[0] == p
      ensures path[|path| - 1] != p
    {
      ForwardRises(f, live, path, |path| - 1);
    }
  }

  // ----- the unit ----------------------------------------------------------------------------------

  /** Writes the data, then releases the flag. */
  function Writer(): Body {
    Body(Function([Block(3, [])]), [None], {0}, [], [Point(0, 0)], {})
  }

  /** Acquires the flag, branches on it, and reads the data on one side. */
  function Reader(): Body {
    Body(Function([Block(2, [1, 2]), Block(1, []), Block(1, [])]), [None, None, None], {0, 1, 2}, [], [Point(1, 0)], {})
  }

  /** True of the initial value as of the published one. */
  function TellsNothing(): Branch {
    Branch(0, map[0 := 1, 1 := 1], map[1 := {1}])
  }

  function Store(): FlagStore {
    FlagStore("writer", Point(0, 1), true, Some(Release), Some(1))
  }

  function Load(): FlagLoad {
    FlagLoad("reader", Point(0, 0), Some(Acquire), [TellsNothing()])
  }

  function Published(): Unit {
    Unit(map["writer" := Writer(), "reader" := Reader()],
         map["flag" := FlagOperations([Store()], [Load()], Some(0))], {}, [],
         [Spawn("writer", false, "main"), Spawn("reader", false, "main")])
  }

  lemma WriterIsValid()
    ensures ValidBody(Writer()) && IsOperationOf(Writer(), Point(0, 1))
  {
    var body := Writer();
    EntryIsOpen(body.graph, body.taken);
    forall block | IsOpen(body.graph, body.taken, block)
      ensures block in body.live
    {
      OpenIsIn(body.graph, body.taken, body.live, block);
    }
    forall p: Point
      ensures !OnCycle(body.graph, body.live, p)
    {
      ForwardIsOffCycles(body.graph, body.live, p);
    }
  }

  lemma ReaderIsLive()
    ensures IsLive(Reader().graph, Reader().taken, Reader().live)
  {
    var body := Reader();
    EntryIsOpen(body.graph, body.taken);
    assert Arms(body.graph, body.taken, 0) == [1, 2];
    ArmIsOpen(body.graph, body.taken, 0, 1);
    ArmIsOpen(body.graph, body.taken, 0, 2);
    hide IsOpen;
    forall block | IsOpen(body.graph, body.taken, block)
      ensures block in body.live
    {
      OpenIsIn(body.graph, body.taken, body.live, block);
    }
  }

  lemma ReaderIsValid()
    ensures ValidBody(Reader()) && IsOperationOf(Reader(), Point(0, 0))
  {
    var body := Reader();
    ReaderIsLive();
    hide IsLive;
    forall p: Point
      ensures !OnCycle(body.graph, body.live, p)
    {
      ForwardIsOffCycles(body.graph, body.live, p);
    }
  }

  lemma ArmIsValid()
    ensures ValidArm(Reader(), TellsNothing().ArmFor(1)) && ValidArm(Reader(), TellsNothing().ArmFor(0))
  {
    var body := Reader();
    forall trace: seq<Point> | IsTrace(body.graph, body.live, trace) && EndsAt(trace, Point(1, 0))
      ensures exists i: nat :: LiveDominance.Crosses(trace, 0, 1, i)
    {
      var last := |trace| - 1;
      assert Step(body.graph, body.live, trace[last - 1], trace[last]);
      assert LiveDominance.Crosses(trace, 0, 1, last);
    }
  }

  lemma UnitIsValid()
    ensures ValidUnit(Published())
  {
    WriterIsValid();
    ReaderIsValid();
    ArmIsValid();
    hide ValidBody, ValidArm, IsOperationOf;
    forall published, arm | arm in Load().ArmsFor(published)
      ensures ValidArm(Reader(), arm)
    {
      var branch := BranchOf(Load().branches, published, arm);
    }
  }

  lemma DataIsTagged()
    ensures IsBeforeRelease(Published(), "flag", "writer", Point(0, 0))
    ensures IsAfterAcquire(Published(), "flag", "reader", Point(1, 0))
  {
    var u := Published();
    assert StartsOnce(u, "writer", 0);
    assert Publishes(u, "flag");
    assert StandsBefore(Writer(), Store(), Point(0, 0)) by {
      InOneBlock(Writer().graph, Writer().live, Point(0, 0), Point(0, 1));
      hide Dominates;
      assert IsReleasePoint(Writer(), Store(), Point(0, 1));
    }
    assert Load().branches[..0] == [];
    assert Load().ArmsFor(1) == [TellsNothing().ArmFor(1)];
    assert TellsNothing().ArmFor(1) in Load().ArmsFor(1);
    assert OrderedOnArm(Reader(), Load(), TellsNothing().ArmFor(1), Point(1, 0));
    OrderedOnSomeArm(Reader(), Load(), 1, Point(1, 0));
  }

  // ----- the execution -----------------------------------------------------------------------------

  /** The reader runs first: its load returns the initial value, and the branch lets it through. */
  function TooEarly(): Execution {
    Execution([Activation("writer", Spawned(0), [Point(0, 0), Point(0, 1)]),
               Activation("reader", Spawned(1), [Point(0, 0), Point(0, 1), Point(1, 0)])],
              map[Event(1, 0) := 0], map[])
  }

  lemma RunsAreReal()
    ensures IsRun(Writer().graph, Writer().taken, TooEarly().activations[0].run)
    ensures IsRun(Reader().graph, Reader().taken, TooEarly().activations[1].run)
  {
    assert 1 in Arms(Reader().graph, Reader().taken, 0);
  }

  lemma ReadsAreTrue()
    ensures TrueOrigins(Published(), TooEarly()) && TrueReads(Published(), TooEarly())
  {
    var u, x := Published(), TooEarly();
    forall l | x.At(l, "reader", Point(0, 0))
      ensures TrueRead(u, x, "flag", l)
    {
      assert l == Event(1, 0);
    }
  }

  lemma BranchesAreTrue()
    ensures TrueBranches(Published(), TooEarly())
  {
    var u, x := Published(), TooEarly();
    forall successor, activation: nat, i: nat
      | activation < |x.activations| && x.activations[activation].functionId == "reader"
        && LiveDominance.Crosses(x.activations[activation].run, 0, successor, i)
      ensures exists position: nat :: Decided(x, activation, i, Load(), TellsNothing(), successor, position)
    {
      assert activation == 1 && i == 2 && successor == 1;
      assert Decided(x, activation, i, Load(), TellsNothing(), successor, 0);
    }
  }

  /** Where no load reads a store, nothing is ordered across activations. */
  lemma {:induction false} OrderedWithin(u: Unit, x: Execution, chain: seq<Event>, n: nat)
    requires x.readsFrom == map[] && n < |chain|
    requires forall i | 0 < i < |chain| :: Ordered(u, x, chain[i - 1], chain[i])
    ensures chain[n].activation == chain[0].activation
  {
    if n > 0 {
      OrderedWithin(u, x, chain, n - 1);
      assert Ordered(u, x, chain[n - 1], chain[n]);
    }
  }

  lemma NotAcross(u: Unit, x: Execution, a: Event, b: Event)
    requires x.readsFrom == map[] && a.activation != b.activation
    ensures !HappensBefore(u, x, a, b)
  {
    hide Ordered;
    forall chain: seq<Event> | |chain| > 1 && chain[0] == a && (forall i | 0 < i < |chain| :: Ordered(u, x, chain[i - 1], chain[i]))
      ensures chain[|chain| - 1] != b
    {
      OrderedWithin(u, x, chain, |chain| - 1);
    }
  }

  lemma ItIsAnExecution()
    ensures IsExecution(Published(), TooEarly())
  {
    RunsAreReal();
    ReadsAreTrue();
    BranchesAreTrue();
    hide IsRun, TrueOrigins, TrueReads, TrueBranches;
  }

  lemma BothGoOneWay()
    ensures !Distinguishes(Published(), "flag")
  {
    var u := Published();
    DataIsTagged();
    assert Publishes(u, "flag");
    hide Publishes, IsBeforeRelease, IsAfterAcquire;
    assert TellsNothing() in Load().branches && Load() in u.flags["flag"].loads;
  }

  /** The tags are there, the execution is one, and the accesses are not ordered: the branch does not tell the published
      value from the initial one. */
  lemma TagsWithoutOrder()
    ensures ValidUnit(Published()) && IsExecution(Published(), TooEarly()) && !Distinguishes(Published(), "flag")
    ensures IsBeforeRelease(Published(), "flag", "writer", Point(0, 0)) && TooEarly().At(Event(0, 0), "writer", Point(0, 0))
    ensures IsAfterAcquire(Published(), "flag", "reader", Point(1, 0)) && TooEarly().At(Event(1, 2), "reader", Point(1, 0))
    ensures !HappensBefore(Published(), TooEarly(), Event(0, 0), Event(1, 2))
  {
    hide ValidUnit, IsExecution, Distinguishes, IsBeforeRelease, IsAfterAcquire, HappensBefore, Published, TooEarly, Execution.At;
    UnitIsValid();
    DataIsTagged();
    ItIsAnExecution();
    BothGoOneWay();
    DataIsRun();
    NotAcross(Published(), TooEarly(), Event(0, 0), Event(1, 2));
  }

  lemma DataIsRun()
    ensures TooEarly().At(Event(0, 0), "writer", Point(0, 0)) && TooEarly().At(Event(1, 2), "reader", Point(1, 0))
    ensures TooEarly().readsFrom == map[]
  {
  }
}
