/** A thread already running when a function is entered: past where the flood follows it, it was joined. */
module InheritedThreads {
  import opened ControlFlow
  import opened Handles
  import opened HandleSummaries
  import opened ThreadFlood
  import opened JoinedActivations
  import opened StartedActivations
  import LiveDominance

  /** Where a join of the handle in the function itself has waited. */
  function PlaceOfJoin(join: JoinSite, handle: Handle): Option<JoinSuccess> {
    if join.handle == handle then join.success else None
  }

  /** Where a call has joined the handle: once returned, when the callee joins it on every path out; where its status
      reads as success, when the callee reports that join. */
  function PlaceOfCall(site: CallSite, callee: Summary, handle: Handle): Option<JoinSuccess> {
    if handle in AtCaller(callee.joined, site) then Some(site.returned)
    else if handle in AtCaller(callee.reported, site) then site.success
    else None
  }

  ghost predicate JoinsAt(u: Unit, f: string, handle: Handle, k: nat, place: JoinSuccess)
    requires f in u
  {
    k < |u[f].joins| && u[f].joins[k].handle == handle && u[f].joins[k].success == Some(place)
  }

  ghost predicate CallJoinsAt(u: Unit, s: Summaries, f: string, handle: Handle, k: nat, place: JoinSuccess)
    requires f in u
  {
    && k < |u[f].calls| && u[f].calls[k].callee in s
    && if Passed(u[f].calls[k], s[u[f].calls[k].callee].joined, handle) then place == u[f].calls[k].returned
       else Passed(u[f].calls[k], s[u[f].calls[k].callee].reported, handle) && u[f].calls[k].success == Some(place)
  }

  /** One of the callee's handles is, in the caller, this one. */
  ghost predicate Passed(site: CallSite, handles: set<Handle>, handle: Handle) {
    exists inner :: inner in handles && HandleAtCaller(inner, site.callee, site.args) == Some(handle)
  }

  lemma PassedIff(site: CallSite, handles: set<Handle>, handle: Handle)
    ensures Passed(site, handles, handle) <==> handle in AtCaller(handles, site)
  {
    hide HandleAtCaller;
  }

  lemma PlaceOfCallIff(u: Unit, s: Summaries, f: string, handle: Handle, k: nat, place: JoinSuccess)
    requires f in u && k < |u[f].calls| && u[f].calls[k].callee in s
    ensures CallJoinsAt(u, s, f, handle, k, place)
       <==> PlaceOfCall(u[f].calls[k], s[u[f].calls[k].callee], handle) == Some(place)
  {
    hide Passed, AtCaller;
    PassedIff(u[f].calls[k], s[u[f].calls[k].callee].joined, handle);
    PassedIff(u[f].calls[k], s[u[f].calls[k].callee].reported, handle);
  }

  /** A join of the handle, in place or through a call, has waited past the place. */
  ghost predicate IsJoiningPlace(u: Unit, s: Summaries, f: string, handle: Handle, place: JoinSuccess)
    requires f in u
  {
    (exists k: nat :: JoinsAt(u, f, handle, k, place)) || (exists k: nat :: CallJoinsAt(u, s, f, handle, k, place))
  }

  ghost function JoiningPlaces(u: Unit, s: Summaries, f: string, handle: Handle): iset<JoinSuccess>
    requires f in u
  {
    iset place | IsJoiningPlace(u, s, f, handle, place)
  }

  function Past(call: Point): Point {
    Point(call.block, call.index + 1)
  }

  /** The kills end the thread past those places and nowhere else. */
  ghost predicate AreKills(places: iset<JoinSuccess>, kills: Kills) {
    && (forall p :: p in kills.from <==> exists call :: AfterCall(call) in places && p == Past(call))
    && (forall e :: e in kills.edges <==> AlongEdge(e.0, e.1) in places)
  }

  lemma AddedKill(places: iset<JoinSuccess>, kills: Kills, place: JoinSuccess)
    requires AreKills(places, kills)
    ensures AreKills(places + iset{place}, kills.Add(place))
  {
    var more := places + iset{place};
    forall p
      ensures p in kills.Add(place).from <==> exists call :: AfterCall(call) in more && p == Past(call)
    {
      if p in kills.from {
        var call :| AfterCall(call) in places && p == Past(call);
        assert AfterCall(call) in more;
      }
      if place.AfterCall? && p == Past(place.call) {
        assert AfterCall(place.call) in more;
      }
    }
  }

  /** The joins of the handle in the function, in place or through a call. */
  method JoinsOf(u: Unit, s: Summaries, f: string, handle: Handle) returns (kills: Kills)
    requires f in u && CalleesKnown(u) && s.Keys == u.Keys
    ensures AreKills(JoiningPlaces(u, s, f, handle), kills)
  {
    hide AreKills, PlaceOfCall, Passed;
    kills := Kills({}, {});
    ghost var places: iset<JoinSuccess> := iset{};
    NoKills();
    for k := 0 to |u[f].joins|
      invariant AreKills(places, kills)
      invariant forall place :: place in places <==> exists i: nat | i < k :: JoinsAt(u, f, handle, i, place)
    {
      var place := PlaceOfJoin(u[f].joins[k], handle);
      if place.Some? {
        AddedKill(places, kills, place.value);
        kills, places := kills.Add(place.value), places + iset{place.value};
        assert JoinsAt(u, f, handle, k, place.value);
      }
    }
    ghost var own := places;
    for k := 0 to |u[f].calls|
      invariant AreKills(places, kills)
      invariant forall place :: place in places
                  <==> place in own || exists i: nat | i < k :: CallJoinsAt(u, s, f, handle, i, place)
    {
      var place := PlaceOfCall(u[f].calls[k], s[u[f].calls[k].callee], handle);
      forall other
        ensures CallJoinsAt(u, s, f, handle, k, other) <==> place == Some(other)
      {
        PlaceOfCallIff(u, s, f, handle, k, other);
      }
      if place.Some? {
        AddedKill(places, kills, place.value);
        kills, places := kills.Add(place.value), places + iset{place.value};
        assert CallJoinsAt(u, s, f, handle, k, place.value);
      }
    }
    assert places == JoiningPlaces(u, s, f, handle);
  }

  lemma NoKills()
    ensures AreKills(iset{}, Kills({}, {}))
  {
  }

  /** What the flood of a thread running on entry is told: its joins, and where its handle is filled again. */
  function EntryKills(kills: Kills, restarts: set<Point>): FloodKills {
    FloodKills(kills, Kills({}, {}), restarts)
  }

  /** The points at which the handle is filled again. */
  ghost predicate AreRestarts(u: Unit, s: Summaries, f: string, handle: Handle, restarts: set<Point>)
    requires f in u
  {
    forall p :: p in restarts <==> Fills(u[f], s, handle, p)
  }

  /** What flooding such a thread gives: a join of its handle ends it, until the handle is filled again; without a handle
      nothing does. */
  ghost predicate IsReachOnEntry(u: Unit, s: Summaries, f: string, handle: Option<Handle>, reach: Reach)
    requires f in u
  {
    match handle
    case Some(h) =>
      exists kills, restarts :: AreKills(JoiningPlaces(u, s, f, h), kills) && AreRestarts(u, s, f, h, restarts)
                                && IsFlood(u[f].graph, FloodKills(kills, Kills({}, {}), restarts), OnEntry, reach)
    case None => IsFlood(u[f].graph, FloodKills(Kills({}, {}), Kills({}, {}), {}), OnEntry, reach)
  }

  /** Where a thread running on entry may still run. */
  method ReachOnEntry(u: Unit, s: Summaries, f: string, handle: Option<Handle>) returns (reach: Reach)
    requires f in u && CalleesKnown(u) && s.Keys == u.Keys && u[f].graph.Valid()
    ensures IsReachOnEntry(u, s, f, handle, reach)
  {
    hide AreKills, JoiningPlaces, IsFlood, Fills;
    var kills, restarts := Kills({}, {}), {};
    if handle.Some? {
      kills := JoinsOf(u, s, f, handle.value);
      restarts := StartSites(u, s, f, handle.value);
    }
    ghost var walks;
    reach, walks := Flood(u[f].graph, OnEntry, EntryKills(kills, restarts));
  }

  // ----- a run against the flood -------------------------------------------------------------------

  /** No restart has refilled the handle before position `i` of the run. */
  ghost predicate HeldUntil(trace: seq<Point>, restarts: set<Point>, i: nat) {
    forall m: nat | m < i && m < |trace| :: trace[m] !in restarts
  }

  ghost function PositionAt(trace: seq<Point>, restarts: set<Point>, i: nat): Position
    requires i < |trace|
  {
    Position(trace[i].block, trace[i].index, HeldUntil(trace, restarts, i))
  }

  /** The run passes one of the places, at position `m`, with the thread still in its handle. */
  ghost predicate EndsAtPosition(trace: seq<Point>, places: iset<JoinSuccess>, restarts: set<Point>, m: nat) {
    HeldUntil(trace, restarts, m) && exists place | place in places :: Passes(trace, place, m)
  }

  lemma EndedPointPasses(body: Body, trace: seq<Point>, places: iset<JoinSuccess>, kills: Kills, m: nat)
    requires IsRun(body, trace) && AreKills(places, kills) && m < |trace| && trace[m] in kills.from
    ensures exists place | place in places :: Passes(trace, place, m)
  {
    var call :| AfterCall(call) in places && trace[m] == Past(call);
    LiveDominance.EnteredAtTop(body.graph, AllBlocks(body.graph), trace, m);
    assert trace[m - trace[m].index + call.index] == Point(trace[m].block, call.index);
    assert Passes(trace, AfterCall(call), m);
  }

  lemma EndedEdgePasses(body: Body, trace: seq<Point>, places: iset<JoinSuccess>, kills: Kills, m: nat)
    requires AreKills(places, kills) && 0 < m < |trace| && trace[m].index == 0
    requires (trace[m - 1].block, trace[m].block) in kills.edges
    ensures exists place | place in places :: Passes(trace, place, m)
  {
    var place := AlongEdge(trace[m - 1].block, trace[m].block);
    assert place in places;
    assert Passes(trace, place, m);
  }

  lemma StepMoves(body: Body, trace: seq<Point>, places: iset<JoinSuccess>, kills: Kills, restarts: set<Point>, i: nat)
    requires IsRun(body, trace) && AreKills(places, kills) && 0 < i < |trace|
    requires !EndsAtPosition(trace, places, restarts, i - 1) && !EndsAtPosition(trace, places, restarts, i)
    ensures Moves(body.graph, EntryKills(kills, restarts), PositionAt(trace, restarts, i - 1),
                  PositionAt(trace, restarts, i))
  {
    hide AreKills, Passes;
    assert LiveDominance.Step(body.graph, AllBlocks(body.graph), trace[i - 1], trace[i]);
    assert HeldUntil(trace, restarts, i) <==> HeldUntil(trace, restarts, i - 1) && trace[i - 1] !in restarts;
    if trace[i - 1] in kills.from {
      EndedPointPasses(body, trace, places, kills, i - 1);
    }
    if trace[i].index == 0 && (trace[i - 1].block, trace[i].block) in kills.edges {
      EndedEdgePasses(body, trace, places, kills, i);
    }
  }

  /** As long as no place is passed, the run is a path of the running thread. */
  lemma RunIsPath(body: Body, trace: seq<Point>, places: iset<JoinSuccess>, kills: Kills, restarts: set<Point>, j: nat)
    requires IsRun(body, trace) && AreKills(places, kills) && j < |trace|
    requires forall m: nat | m <= j :: !EndsAtPosition(trace, places, restarts, m)
    ensures RunsAt(body.graph, EntryKills(kills, restarts), OnEntry, trace[j], HeldUntil(trace, restarts, j))
  {
    hide AreKills, Passes, Moves, EndsAtPosition;
    var k := EntryKills(kills, restarts);
    var path := seq(j + 1, i requires 0 <= i <= j => PositionAt(trace, restarts, i));
    forall i | 0 < i < |path|
      ensures Moves(body.graph, k, path[i - 1], path[i])
    {
      StepMoves(body, trace, places, kills, restarts, i);
    }
    assert IsPath(body.graph, k, OnEntry, path);
    assert path[|path| - 1] == PositionAt(trace, restarts, j);
    NotEnded(body, trace, places, kills, restarts, j);
  }

  lemma NotEnded(body: Body, trace: seq<Point>, places: iset<JoinSuccess>, kills: Kills, restarts: set<Point>, j: nat)
    requires IsRun(body, trace) && AreKills(places, kills) && j < |trace|
    requires !EndsAtPosition(trace, places, restarts, j)
    ensures !EndedAt(EntryKills(kills, restarts), trace[j].block, trace[j].index, HeldUntil(trace, restarts, j))
  {
    hide AreKills, Passes;
    if trace[j] in kills.from {
      EndedPointPasses(body, trace, places, kills, j);
    }
  }

  // ----- what passing a place means ----------------------------------------------------------------

  /** At position `q` the activation waited for the thread in that storage, by a join of its own or in a call. */
  ghost predicate JoinedAt(u: Unit, a: Activation, storage: int, q: nat) {
    || (a.functionId in u && exists k: nat | k < |u[a.functionId].joins| ::
          Waited(a, u[a.functionId].joins[k].point, |a.trace|, q)
            && a.place(u[a.functionId].joins[k].handle) == storage)
    || (q < |a.calls| && a.calls[q].Some? && Joins(u, a.calls[q].value, storage))
  }

  lemma PassedJoin(u: Unit, a: Activation, handle: Handle, k: nat, place: JoinSuccess, m: nat) returns (q: nat)
    requires IsActivation(u, a) && JoinsAt(u, a.functionId, handle, k, place) && Passes(a.trace, place, m)
    ensures q < m <= |a.trace| && JoinedAt(u, a, a.place(handle), q)
  {
    hide IsRun, TrueResult, Passes;
    var join := u[a.functionId].joins[k];
    q :| Waited(a, join.point, m, q);
    assert Waited(a, join.point, |a.trace|, q);
  }

  lemma NestedJoined(u: Unit, a: Activation, k: nat, q: nat, inner: Handle, handle: Handle)
    requires IsActivation(u, a) && k < |u[a.functionId].calls| && q < |a.calls| && a.calls[q].Some?
    requires a.trace[q] == u[a.functionId].calls[k].point
    requires HandleAtCaller(inner, u[a.functionId].calls[k].callee, u[a.functionId].calls[k].args) == Some(handle)
    requires Joins(u, a.calls[q].value, a.calls[q].value.place(inner))
    ensures JoinedAt(u, a, a.place(handle), q)
  {
    hide IsRun, TruePlaces, TrueResult, Joins, HandleAtCaller, Binds;
    SameStorage(u[a.functionId].calls[k], a, a.calls[q].value, inner);
  }

  lemma PassedCall(u: Unit, s: Summaries, a: Activation, handle: Handle, k: nat, place: JoinSuccess, m: nat)
    returns (q: nat)
    requires IsActivation(u, a) && CallsKeep(u, s, a) && CallJoinsAt(u, s, a.functionId, handle, k, place)
    requires Passes(a.trace, place, m)
    ensures q < m <= |a.trace| && JoinedAt(u, a, a.place(handle), q)
  {
    hide IsRun, TrueResult, Passes, Joins, JoinedAt, Returned, HandleAtCaller;
    var site := u[a.functionId].calls[k];
    var callee := s[site.callee];
    if Passed(site, callee.joined, handle) {
      q :| CalledAndReturned(u, a, site.point, m, q);
      assert Binds(site, a, a.calls[q].value);
      var inner :| inner in callee.joined && HandleAtCaller(inner, site.callee, site.args) == Some(handle);
      NestedJoined(u, a, k, q, inner, handle);
    } else {
      q :| CalledWithSuccess(u, a, site.point, m, q);
      assert Binds(site, a, a.calls[q].value);
      var inner :| inner in callee.reported && HandleAtCaller(inner, site.callee, site.args) == Some(handle);
      NestedJoined(u, a, k, q, inner, handle);
    }
  }

  lemma CallsHold(u: Unit, s: Summaries, a: Activation)
    requires ValidUnit(u) && Accounted(u, s) && s.Keys == u.Keys && IsActivation(u, a)
    ensures CallsKeep(u, s, a)
  {
    hide IsRun, ValidUnit, TruePlaces, TrueResult, Joins, Binds;
    forall j | 0 <= j < |a.calls| && a.calls[j].Some? && Returned(u, a.calls[j].value)
      ensures a.calls[j].value.functionId in s && Keeps(u, s, a.calls[j].value)
    {
      SummariesHold(u, s, a.calls[j].value);
    }
  }

  /** Where the flood no longer follows a thread that was running on entry, every run has waited by then, itself or in a
      call, for a thread in its handle, and up to that wait every start into the handle's storage escaped the analysis. */
  lemma GoneIsJoined(u: Unit, s: Summaries, a: Activation, handle: Handle, reach: Reach, j: nat) returns (q: nat)
    requires ValidUnit(u) && Accounted(u, s) && Stable(u, s) && s.Keys == u.Keys && IsActivation(u, a)
    requires IsReachOnEntry(u, s, a.functionId, Some(handle), reach)
    requires j < |a.trace| && u[a.functionId].graph.Contains(a.trace[j]) && !reach.Contains(a.trace[j])
    ensures q < j && JoinedAt(u, a, a.place(handle), q)
    ensures forall m: nat | m <= q :: !Fills(u[a.functionId], s, handle, a.trace[m])
    ensures forall down, k: nat | IsStart(u, a, down, k) && down[0] <= q :: Escapes(u, a, down, k, handle)
  {
    hide IsRun, ValidUnit, TruePlaces, TrueResult, Binds, JoinedAt, AreKills, RunsAt, IsFlood, Accounted, Passes,
         JoinsAt, CallJoinsAt, Reach.Contains, Stable, Fills, Escapes;
    var body, places := u[a.functionId], JoiningPlaces(u, s, a.functionId, handle);
    var kills, restarts :| AreKills(places, kills) && AreRestarts(u, s, a.functionId, handle, restarts)
                           && IsFlood(body.graph, EntryKills(kills, restarts), OnEntry, reach);
    if forall m: nat | m <= j :: !EndsAtPosition(a.trace, places, restarts, m) {
      RunIsPath(body, a.trace, places, kills, restarts, j);
      ContainsIsExact(body.graph, EntryKills(kills, restarts), OnEntry, reach, a.trace[j]);
      assert false;
    }
    var m: nat :| m <= j && EndsAtPosition(a.trace, places, restarts, m);
    var place :| place in places && Passes(a.trace, place, m);
    CallsHold(u, s, a);
    if k: nat :| JoinsAt(u, a.functionId, handle, k, place) {
      q := PassedJoin(u, a, handle, k, place, m);
    } else {
      var k: nat :| CallJoinsAt(u, s, a.functionId, handle, k, place);
      q := PassedCall(u, s, a, handle, k, place, m);
    }
    assert forall i: nat | i <= q :: a.trace[i] !in restarts;
    forall down, k: nat | IsStart(u, a, down, k) && down[0] <= q
      ensures Escapes(u, a, down, k, handle)
    {
      FillsUnlessEscapes(u, s, a, down, k, handle);
    }
  }

  /** So when every name a callee starts into crosses its calls, nothing else names the storage and spawns keep what they
      start, no thread was started into the storage before the wait: it was for the inherited thread. */
  lemma InheritedIsJoined(u: Unit, s: Summaries, a: Activation, handle: Handle, reach: Reach, j: nat) returns (q: nat)
    requires ValidUnit(u) && Accounted(u, s) && Stable(u, s) && s.Keys == u.Keys && IsActivation(u, a)
    requires IsReachOnEntry(u, s, a.functionId, Some(handle), reach)
    requires j < |a.trace| && u[a.functionId].graph.Contains(a.trace[j]) && !reach.Contains(a.trace[j])
    requires StartsCross(u, s) && SpawnsKeep(u[a.functionId], s, handle)
    requires NamesApart(a, handle) && CallsListed(u, a, a.place(handle))
    ensures q < j && JoinedAt(u, a, a.place(handle), q)
    ensures forall down, k: nat | IsStart(u, a, down, k) && down[0] <= q :: StorageOf(u, a, down, k) != a.place(handle)
  {
    hide ValidUnit, IsActivation, IsReachOnEntry, JoinedAt, Accounted, Stable, Fills, Escapes, StartsCross, SpawnsKeep,
         NamesApart, CallsListed, Reach.Contains, StorageOf;
    q := GoneIsJoined(u, s, a, handle, reach, j);
    forall down, k: nat | IsStart(u, a, down, k) && down[0] <= q
      ensures StorageOf(u, a, down, k) != a.place(handle)
    {
      if StorageOf(u, a, down, k) == a.place(handle) {
        NoneEscapes(u, s, a, down, k, handle);
      }
    }
  }
}
