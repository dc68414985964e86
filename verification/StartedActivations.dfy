/** What the started summaries promise of runs: a thread started at any depth is counted where its name arrives. */
module StartedActivations {
  import opened ControlFlow
  import opened Handles
  import opened HandleSummaries
  import opened JoinedActivations
  import ThreadFlood

  // ----- starts of a run ---------------------------------------------------------------------------

  /** The activation runs, at the end of the positions `down` that lead from call to call, its start number `k`. */
  ghost predicate IsStart(u: Unit, a: Activation, down: seq<nat>, k: nat)
    decreases |down|
  {
    && down != [] && a.functionId in u && down[0] < |a.trace|
    && if |down| == 1 then k < |u[a.functionId].Starts()| && a.trace[down[0]] == u[a.functionId].Starts()[k].point
       else down[0] < |a.calls| && a.calls[down[0]].Some? && IsStart(u, a.calls[down[0]].value, down[1..], k)
  }

  /** The storage the thread is started into. */
  ghost function StorageOf(u: Unit, a: Activation, down: seq<nat>, k: nat): int
    requires IsStart(u, a, down, k)
    decreases |down|
  {
    if |down| == 1 then a.place(u[a.functionId].Starts()[k].handle)
    else StorageOf(u, a.calls[down[0]].value, down[1..], k)
  }

  ghost predicate IsSiteAt(u: Unit, a: Activation, m: nat, c: nat) {
    a.functionId in u && m < |a.trace| && c < |u[a.functionId].calls| && u[a.functionId].calls[c].point == a.trace[m]
  }

  /** The summaries carry the name across the call at `m`. */
  ghost predicate CarriedAt(u: Unit, a: Activation, m: nat, c: nat, inner: Handle, name: Handle) {
    && IsSiteAt(u, a, m, c)
    && HandleAtCaller(inner, u[a.functionId].calls[c].callee, u[a.functionId].calls[c].args) == Some(name)
  }

  /** What the start's handle is called in the frame of the activation, its name translated from call to call. */
  ghost predicate NamedAs(u: Unit, a: Activation, down: seq<nat>, k: nat, name: Handle)
    requires IsStart(u, a, down, k)
    decreases |down|
  {
    if |down| == 1 then name == u[a.functionId].Starts()[k].handle
    else exists inner, c: nat :: NamedAs(u, a.calls[down[0]].value, down[1..], k, inner)
                                 && CarriedAt(u, a, down[0], c, inner, name)
  }

  lemma CalleeOfSite(u: Unit, a: Activation, m: nat, c: nat)
    requires IsActivation(u, a) && IsSiteAt(u, a, m, c) && m < |a.calls| && a.calls[m].Some?
    ensures IsActivation(u, a.calls[m].value) && Binds(u[a.functionId].calls[c], a, a.calls[m].value)
    ensures a.calls[m].value.functionId == u[a.functionId].calls[c].callee
  {
    hide IsRun, TruePlaces, TrueResult;
  }

  /** The dual of the joined summaries: a start at any depth is in the started summary, under the name it arrives by. */
  lemma {:induction false} NamedStartInSummary(u: Unit, s: Summaries, a: Activation, down: seq<nat>, k: nat, name: Handle)
    requires Stable(u, s) && IsActivation(u, a) && IsStart(u, a, down, k) && NamedAs(u, a, down, k, name)
    ensures a.functionId in s && name in s[a.functionId].started
    decreases |down|
  {
    hide IsRun, TruePlaces, TrueResult, FromCall, FromJoin, HandleAtCaller, Binds, IsActivation, Stable;
    StableHere(u, s, a.functionId);
    if |down| > 1 {
      var nested := a.calls[down[0]].value;
      var inner, c: nat :| NamedAs(u, nested, down[1..], k, inner) && CarriedAt(u, a, down[0], c, inner, name);
      CalleeOfSite(u, a, down[0], c);
      NamedStartInSummary(u, s, nested, down[1..], k, inner);
      StartCarried(u, s, a.functionId, c, inner, name);
    }
  }

  lemma StableHere(u: Unit, s: Summaries, f: string)
    requires Stable(u, s) && f in u
    ensures f in s && forall i | 0 <= i < |u[f].Starts()| :: u[f].Starts()[i].handle in s[f].started
  {
    hide FromCall, FromJoin;
    assert StableAt(u, s, f);
  }

  lemma StartCarried(u: Unit, s: Summaries, f: string, c: nat, inner: Handle, name: Handle)
    requires Stable(u, s) && f in u && c < |u[f].calls| && u[f].calls[c].callee in s
    requires inner in s[u[f].calls[c].callee].started
    requires HandleAtCaller(inner, u[f].calls[c].callee, u[f].calls[c].args) == Some(name)
    ensures f in s && name in s[f].started && name in AtCaller(s[u[f].calls[c].callee].started, u[f].calls[c])
  {
    hide HandleAtCaller, FromJoin, Body.OnEveryPath;
    assert StableAt(u, s, f);
  }

  /** The name a start arrives by names the storage it fills. */
  lemma {:induction false} NamedStorage(u: Unit, a: Activation, down: seq<nat>, k: nat, name: Handle)
    requires IsActivation(u, a) && IsStart(u, a, down, k) && NamedAs(u, a, down, k, name)
    ensures a.place(name) == StorageOf(u, a, down, k)
    decreases |down|
  {
    hide IsRun, TruePlaces, TrueResult, HandleAtCaller, Binds, IsActivation;
    if |down| > 1 {
      var nested := a.calls[down[0]].value;
      var inner, c: nat :| NamedAs(u, nested, down[1..], k, inner) && CarriedAt(u, a, down[0], c, inner, name);
      CalleeOfSite(u, a, down[0], c);
      NamedStorage(u, nested, down[1..], k, inner);
      SameStorage(u[a.functionId].calls[c], a, nested, inner);
    }
  }

  // ----- where a name is lost ----------------------------------------------------------------------

  /** A name crosses a call exactly when it is a global's, or a parameter's whose argument is named by no unknown index
      and few enough steps. */
  predicate Crosses(handle: Handle, callee: string, args: seq<Option<Handle>>) {
    match handle.root
    case Global(_) => true
    case Local(_) => false
    case Parameter(functionId, index) =>
      && functionId == callee && index < |args| && args[index].Some?
      && "*" !in args[index].value.steps && "*" !in handle.steps
      && |args[index].value.steps| + |handle.steps| <= 16
  }

  lemma CrossesIff(handle: Handle, callee: string, args: seq<Option<Handle>>)
    ensures HandleAtCaller(handle, callee, args).Some? <==> Crosses(handle, callee, args)
  {
  }

  /** On the way up the name is lost: at some call, the name it has in the callee does not cross. */
  ghost predicate LostBelow(u: Unit, a: Activation, down: seq<nat>, k: nat)
    requires IsStart(u, a, down, k)
    decreases |down|
  {
    |down| > 1 &&
      var nested := a.calls[down[0]].value;
      || LostBelow(u, nested, down[1..], k)
      || forall inner, c: nat | NamedAs(u, nested, down[1..], k, inner) && IsSiteAt(u, a, down[0], c) ::
           !Crosses(inner, u[a.functionId].calls[c].callee, u[a.functionId].calls[c].args)
  }

  lemma {:induction false} NamedIsNotLost(u: Unit, a: Activation, down: seq<nat>, k: nat, name: Handle)
    requires IsStart(u, a, down, k) && NamedAs(u, a, down, k, name)
    ensures !LostBelow(u, a, down, k)
    decreases |down|
  {
    hide HandleAtCaller, Crosses;
    if |down| > 1 {
      var nested := a.calls[down[0]].value;
      var inner, c: nat :| NamedAs(u, nested, down[1..], k, inner) && CarriedAt(u, a, down[0], c, inner, name);
      NamedIsNotLost(u, nested, down[1..], k, inner);
      CrossesIff(inner, u[a.functionId].calls[c].callee, u[a.functionId].calls[c].args);
    }
  }

  lemma {:induction false} NotLostIsNamed(u: Unit, a: Activation, down: seq<nat>, k: nat) returns (name: Handle)
    requires IsStart(u, a, down, k) && !LostBelow(u, a, down, k)
    ensures NamedAs(u, a, down, k, name)
    decreases |down|
  {
    hide HandleAtCaller, Crosses;
    if |down| == 1 {
      name := u[a.functionId].Starts()[k].handle;
    } else {
      var nested := a.calls[down[0]].value;
      var inner, c: nat :| NamedAs(u, nested, down[1..], k, inner) && IsSiteAt(u, a, down[0], c)
        && Crosses(inner, u[a.functionId].calls[c].callee, u[a.functionId].calls[c].args);
      CrossesIff(inner, u[a.functionId].calls[c].callee, u[a.functionId].calls[c].args);
      name := HandleAtCaller(inner, u[a.functionId].calls[c].callee, u[a.functionId].calls[c].args).value;
      assert CarriedAt(u, a, down[0], c, inner, name);
    }
  }

  /** A start has a name in the frame exactly when no call on the way lost it. */
  lemma NamedUnlessLost(u: Unit, a: Activation, down: seq<nat>, k: nat)
    requires IsStart(u, a, down, k)
    ensures (exists name :: NamedAs(u, a, down, k, name)) <==> !LostBelow(u, a, down, k)
  {
    if name :| NamedAs(u, a, down, k, name) {
      NamedIsNotLost(u, a, down, k, name);
    } else if !LostBelow(u, a, down, k) {
      var name := NotLostIsNamed(u, a, down, k);
    }
  }

  // ----- the points where a handle is filled -------------------------------------------------------

  predicate SpawnsAt(body: Body, p: Point) {
    exists k | 0 <= k < |body.spawns| :: body.spawns[k].point == p
  }

  predicate FillsHere(body: Body, k: nat, handle: Handle, p: Point) {
    k < |body.Starts()| && body.Starts()[k].handle == handle && body.Starts()[k].point == p
  }

  /** A call that fills the handle, and is no spawn itself: what a spawn's own body starts, the spawn counts. */
  ghost predicate FillsThrough(body: Body, s: Summaries, c: nat, handle: Handle, p: Point) {
    && c < |body.calls| && body.calls[c].point == p && body.calls[c].callee in s
    && (forall k | 0 <= k < |body.spawns| :: body.spawns[k].point != p)
    && exists inner :: inner in s[body.calls[c].callee].started
                       && HandleAtCaller(inner, body.calls[c].callee, body.calls[c].args) == Some(handle)
  }

  lemma FillsThroughIff(body: Body, s: Summaries, c: nat, handle: Handle, p: Point)
    requires c < |body.calls| && body.calls[c].callee in s
    ensures FillsThrough(body, s, c, handle, p)
       <==> && body.calls[c].point == p && !SpawnsAt(body, p)
            && handle in AtCaller(s[body.calls[c].callee].started, body.calls[c])
  {
    hide HandleAtCaller;
  }

  ghost predicate Fills(body: Body, s: Summaries, handle: Handle, p: Point) {
    (exists k: nat :: FillsHere(body, k, handle, p)) || (exists c: nat :: FillsThrough(body, s, c, handle, p))
  }

  /** Where the function starts or moves a thread into the handle, in place or through calls. */
  method StartSites(u: Unit, s: Summaries, f: string, handle: Handle) returns (sites: set<Point>)
    requires f in u && CalleesKnown(u) && s.Keys == u.Keys
    ensures forall p :: p in sites <==> Fills(u[f], s, handle, p)
  {
    hide AtCaller, SpawnsAt, FillsThrough;
    var body := u[f];
    sites := {};
    for k := 0 to |body.Starts()|
      invariant forall p :: p in sites <==> exists i: nat | i < k :: FillsHere(body, i, handle, p)
    {
      if body.Starts()[k].handle == handle {
        sites := sites + {body.Starts()[k].point};
        assert FillsHere(body, k, handle, body.Starts()[k].point);
      }
    }
    ghost var own := sites;
    for c := 0 to |body.calls|
      invariant forall p :: p in sites <==> p in own || exists i: nat | i < c :: FillsThrough(body, s, i, handle, p)
    {
      var site := body.calls[c];
      forall p
        ensures FillsThrough(body, s, c, handle, p)
           <==> site.point == p && !SpawnsAt(body, p) && handle in AtCaller(s[site.callee].started, site)
      {
        FillsThroughIff(body, s, c, handle, p);
      }
      if !SpawnsAt(body, site.point) && handle in AtCaller(s[site.callee].started, site) {
        sites := sites + {site.point};
      }
    }
    FillsInRange(body, s, handle);
  }

  lemma FillsInRange(body: Body, s: Summaries, handle: Handle)
    ensures forall c: nat, p | FillsThrough(body, s, c, handle, p) :: c < |body.calls|
  {
  }

  /** The start is made in the body of a call that is itself a spawn. */
  ghost predicate BySpawn(u: Unit, a: Activation, down: seq<nat>) {
    |down| > 1 && a.functionId in u && down[0] < |a.trace| && SpawnsAt(u[a.functionId], a.trace[down[0]])
  }

  /** A start that arrives by the handle's name is made at a point that fills it. */
  lemma NamedStartFills(u: Unit, s: Summaries, a: Activation, down: seq<nat>, k: nat, handle: Handle)
    requires Stable(u, s) && IsActivation(u, a) && IsStart(u, a, down, k) && NamedAs(u, a, down, k, handle)
    requires !BySpawn(u, a, down)
    ensures Fills(u[a.functionId], s, handle, a.trace[down[0]])
  {
    hide IsRun, TruePlaces, TrueResult, FromCall, FromJoin, HandleAtCaller, Binds, IsActivation, Stable, AtCaller, SpawnsAt;
    var body := u[a.functionId];
    if |down| == 1 {
      assert FillsHere(body, k, handle, a.trace[down[0]]);
    } else {
      var nested := a.calls[down[0]].value;
      var inner, c: nat :| NamedAs(u, nested, down[1..], k, inner) && CarriedAt(u, a, down[0], c, inner, handle);
      CalleeOfSite(u, a, down[0], c);
      NamedStartInSummary(u, s, nested, down[1..], k, inner);
      StartCarried(u, s, a.functionId, c, inner, handle);
      FillsThroughIff(body, s, c, handle, a.trace[down[0]]);
    }
  }

  // ----- when no start is missed -------------------------------------------------------------------

  /** Every name a callee starts into crosses each call of it, but for those of its own locals. */
  ghost predicate StartsCross(u: Unit, s: Summaries) {
    forall f, c: nat, inner | f in u && c < |u[f].calls| && u[f].calls[c].callee in s
                              && inner in s[u[f].calls[c].callee].started ::
      inner.root.Local? || Crosses(inner, u[f].calls[c].callee, u[f].calls[c].args)
  }

  /** Every call the activation makes, at any depth, is one of its function's sites, and no local of a callee is the
      storage. */
  ghost predicate CallsListed(u: Unit, a: Activation, storage: int)
    decreases a
  {
    forall m | 0 <= m < |a.calls| && a.calls[m].Some? ::
      && (exists c: nat :: IsSiteAt(u, a, m, c))
      && (forall handle: Handle | handle.root.Local? :: a.calls[m].value.place(handle) != storage)
      && CallsListed(u, a.calls[m].value, storage)
  }

  /** Nothing but the handle names its storage in the frame. */
  ghost predicate NamesApart(a: Activation, handle: Handle) {
    forall other :: a.place(other) == a.place(handle) ==> other == handle
  }

  lemma {:induction false} StartHasName(u: Unit, s: Summaries, a: Activation, down: seq<nat>, k: nat) returns (name: Handle)
    requires Stable(u, s) && StartsCross(u, s) && IsActivation(u, a) && IsStart(u, a, down, k)
    requires CallsListed(u, a, StorageOf(u, a, down, k))
    ensures NamedAs(u, a, down, k, name)
    decreases |down|
  {
    hide IsRun, TruePlaces, TrueResult, HandleAtCaller, Crosses, Binds, IsActivation, Stable;
    if |down| == 1 {
      name := u[a.functionId].Starts()[k].handle;
    } else {
      var nested := a.calls[down[0]].value;
      var c: nat :| IsSiteAt(u, a, down[0], c);
      CalleeOfSite(u, a, down[0], c);
      var inner := StartHasName(u, s, nested, down[1..], k);
      NamedStorage(u, nested, down[1..], k, inner);
      NamedStartInSummary(u, s, nested, down[1..], k, inner);
      CrossesIff(inner, u[a.functionId].calls[c].callee, u[a.functionId].calls[c].args);
      name := HandleAtCaller(inner, u[a.functionId].calls[c].callee, u[a.functionId].calls[c].args).value;
      assert CarriedAt(u, a, down[0], c, inner, name);
    }
  }

  /** A call that is itself a spawn fills, when its body does, the handle the spawn is counted into. */
  ghost predicate SpawnsKeep(body: Body, s: Summaries, handle: Handle) {
    forall c: nat | c < |body.calls| && SpawnsAt(body, body.calls[c].point) && body.calls[c].callee in s
                    && handle in AtCaller(s[body.calls[c].callee].started, body.calls[c]) ::
      exists k: nat :: FillsHere(body, k, handle, body.calls[c].point)
  }

  /** The start is none the analysis sees as one into the handle: no name of it arrives as the handle, or a spawn counts
      it into another. */
  ghost predicate Escapes(u: Unit, a: Activation, down: seq<nat>, k: nat, handle: Handle)
    requires IsStart(u, a, down, k)
  {
    || !NamedAs(u, a, down, k, handle)
    || (BySpawn(u, a, down) && forall i: nat :: !FillsHere(u[a.functionId], i, handle, a.trace[down[0]]))
  }

  /** Whatever does not escape is made at a point that fills the handle. */
  lemma FillsUnlessEscapes(u: Unit, s: Summaries, a: Activation, down: seq<nat>, k: nat, handle: Handle)
    requires Stable(u, s) && IsActivation(u, a) && IsStart(u, a, down, k)
    ensures Escapes(u, a, down, k, handle) || Fills(u[a.functionId], s, handle, a.trace[down[0]])
  {
    hide IsActivation, Stable, NamedAs, SpawnsAt, FillsThrough;
    if NamedAs(u, a, down, k, handle) && !BySpawn(u, a, down) {
      NamedStartFills(u, s, a, down, k, handle);
    }
  }

  /** When starts cross, names are apart and spawns keep what they start, no start into the handle's storage escapes. */
  lemma NoneEscapes(u: Unit, s: Summaries, a: Activation, down: seq<nat>, k: nat, handle: Handle)
    requires Stable(u, s) && StartsCross(u, s) && IsActivation(u, a) && IsStart(u, a, down, k)
    requires StorageOf(u, a, down, k) == a.place(handle) && NamesApart(a, handle) && CallsListed(u, a, a.place(handle))
    requires SpawnsKeep(u[a.functionId], s, handle)
    ensures !Escapes(u, a, down, k, handle)
  {
    hide IsActivation, Stable, StartsCross, CallsListed, HandleAtCaller, SpawnsAt, AtCaller;
    var name := StartHasName(u, s, a, down, k);
    NamedStorage(u, a, down, k, name);
    if |down| > 1 && BySpawn(u, a, down) {
      var nested := a.calls[down[0]].value;
      var inner, c: nat :| NamedAs(u, nested, down[1..], k, inner) && CarriedAt(u, a, down[0], c, inner, handle);
      CalleeOfSite(u, a, down[0], c);
      NamedStartInSummary(u, s, nested, down[1..], k, inner);
      StartCarried(u, s, a.functionId, c, inner, handle);
    }
  }

  // ----- a start that is missed --------------------------------------------------------------------

  function Given(f: string): Handle {
    Handle(Parameter(f, 0), [])
  }

  /** A caller that hands its handle on through a pointer it cannot name, then joins it; and the callee, which starts a
      thread into what it is handed. */
  function LosingUnit(): Unit {
    map["caller" := Body(Function([Block(3, [])]), [], [],
                         [JoinSite(Point(0, 1), Given("caller"), Some(ThreadFlood.AfterCall(Point(0, 1))), false)],
                         [CallSite(Point(0, 0), "callee", [None], ThreadFlood.AfterCall(Point(0, 0)), None, false)],
                         {Point(0, 2)}, {}),
        "callee" := Body(Function([Block(2, [])]), [StartSite(Point(0, 0), Given("callee"))], [], [], [], {Point(0, 1)}, {})]
  }

  /** Only what the function is given lies at 0. */
  ghost function Placing(f: string): Handle -> int {
    handle => if handle == Given(f) then 0 else 1
  }

  ghost function CalleeRun(): Activation {
    Activation("callee", Placing("callee"), [Point(0, 0), Point(0, 1)], {}, [None, None], false)
  }

  ghost function CallerRun(): Activation {
    Activation("caller", Placing("caller"), [Point(0, 0), Point(0, 1), Point(0, 2)], {1},
               [Some(CalleeRun()), None, None], false)
  }

  lemma CalleeIsRun()
    ensures IsActivation(LosingUnit(), CalleeRun()) && Returned(LosingUnit(), CalleeRun())
  {
    var u, b := LosingUnit(), CalleeRun();
    assert 0 in Numbers(1);
    assert IsRun(u["callee"], b.trace);
    assert TruePlaces(u, b) && TrueResult(u, b);
  }

  lemma CallerPlaces()
    ensures TruePlaces(LosingUnit(), CallerRun()) && TrueResult(LosingUnit(), CallerRun())
  {
    CalleeIsRun();
    hide IsActivation;
    var u, a := LosingUnit(), CallerRun();
    assert Waited(a, Point(0, 1), 2, 1);
    assert CalledAndReturned(u, a, Point(0, 0), 1, 0);
  }

  lemma CallerIsRun()
    ensures IsActivation(LosingUnit(), CallerRun())
  {
    var u, a := LosingUnit(), CallerRun();
    CalleeIsRun();
    CallerPlaces();
    hide TruePlaces, TrueResult;
    assert 0 in Numbers(1);
    assert IsRun(u["caller"], a.trace);
    assert Binds(u["caller"].calls[0], a, a.calls[0].value);
  }

  /** A start the analysis misses, whatever the summaries: its storage is the handle's, which nothing else names, but the
      call passes it under no name; the join that follows waits for the new thread. */
  lemma StartMissed()
    ensures IsActivation(LosingUnit(), CallerRun()) && IsStart(LosingUnit(), CallerRun(), [0, 0], 0)
    ensures StorageOf(LosingUnit(), CallerRun(), [0, 0], 0) == CallerRun().place(Given("caller"))
    ensures NamesApart(CallerRun(), Given("caller")) && CallsListed(LosingUnit(), CallerRun(), 0)
    ensures LostBelow(LosingUnit(), CallerRun(), [0, 0], 0)
    ensures forall s, p :: !Fills(LosingUnit()["caller"], s, Given("caller"), p)
  {
    CallerIsRun();
    hide IsActivation;
    var u, a, b := LosingUnit(), CallerRun(), CalleeRun();
    assert [0, 0][1..] == [0];
    assert IsStart(u, b, [0], 0) && StorageOf(u, b, [0], 0) == 0;
    assert IsSiteAt(u, a, 0, 0);
    assert CallsListed(u, b, 0);
    assert forall inner, c: nat | NamedAs(u, b, [0], 0, inner) && IsSiteAt(u, a, 0, c) ::
        !Crosses(inner, u["caller"].calls[c].callee, u["caller"].calls[c].args);
    forall s: Summaries, c: nat, p
      ensures !FillsThrough(u["caller"], s, c, Given("caller"), p)
    {
    }
  }
}
