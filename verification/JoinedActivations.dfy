/** What the joined summaries promise of runs: every activation that returns has joined the handles in them. */
module JoinedActivations {
  import opened ControlFlow
  import opened Handles
  import opened HandleSummaries
  import opened ThreadFlood
  import LiveDominance

  /** One activation of a function: the storage each handle names in its frame, the instructions it ran, the positions
      at which a join waited for its thread, the activations its calls made, and whether it returned a status that
      reads as success. */
  datatype Activation = Activation(functionId: string, place: Handle -> int, trace: seq<Point>, joined: set<nat>,
                                   calls: seq<Option<Activation>>, succeeded: bool)

  ghost function Numbers(n: nat): set<nat> {
    if n == 0 then {} else Numbers(n - 1) + {n - 1}
  }

  ghost function AllBlocks(f: Function): set<nat> {
    Numbers(|f.blocks|)
  }

  ghost predicate IsRun(body: Body, trace: seq<Point>) {
    LiveDominance.IsTrace(body.graph, AllBlocks(body.graph), trace)
  }

  /** The dominator tree says what it should of the normal returns. */
  ghost predicate ValidCovers(body: Body) {
    forall success, exit | (success, exit) in body.covers ::
      match success
      case AfterCall(call) => call != exit && LiveDominance.Dominates(body.graph, AllBlocks(body.graph), call, exit)
      case AlongEdge(branch, successor) =>
        LiveDominance.EdgeDominates(body.graph, AllBlocks(body.graph), branch, successor, exit.block)
  }

  /** The run has just passed the place. */
  ghost predicate Passes(trace: seq<Point>, success: JoinSuccess, i: nat) {
    match success
    case AfterCall(call) => 0 < i < |trace| && trace[i - 1] == call
    case AlongEdge(branch, successor) => LiveDominance.Crosses(trace, branch, successor, i)
  }

  ghost predicate Returned(u: Unit, a: Activation) {
    a.functionId in u && a.trace != [] && a.trace[|a.trace| - 1] in u[a.functionId].exits
  }

  /** The join at the point waited for its thread, before position `before`. */
  ghost predicate Waited(a: Activation, p: Point, before: nat, j: nat) {
    j < before <= |a.trace| && a.trace[j] == p && j in a.joined
  }

  ghost predicate CalledAndReturned(u: Unit, a: Activation, p: Point, before: nat, j: nat) {
    && j < before <= |a.trace| && a.trace[j] == p && j < |a.calls| && a.calls[j].Some?
    && Returned(u, a.calls[j].value)
  }

  ghost predicate CalledWithSuccess(u: Unit, a: Activation, p: Point, before: nat, j: nat) {
    CalledAndReturned(u, a, p, before, j) && a.calls[j].value.succeeded
  }

  /** Past the place where a join reads as successful, it has waited; past a call, its activation has returned; and past
      the place where the status of a call reads as success, that activation reported success. */
  ghost predicate TruePlaces(u: Unit, a: Activation)
    requires a.functionId in u
  {
    var body := u[a.functionId];
    && (forall k: nat, i: nat | k < |body.joins| && body.joins[k].success.Some?
                                && Passes(a.trace, body.joins[k].success.value, i) ::
          exists j: nat :: Waited(a, body.joins[k].point, i, j))
    && (forall k: nat, i: nat | k < |body.calls| && Passes(a.trace, body.calls[k].returned, i) ::
          exists j: nat :: CalledAndReturned(u, a, body.calls[k].point, i, j))
    && (forall k: nat, i: nat | k < |body.calls| && body.calls[k].success.Some?
                                && Passes(a.trace, body.calls[k].success.value, i) ::
          exists j: nat :: CalledWithSuccess(u, a, body.calls[k].point, i, j))
  }

  /** A function that hands back the status of a join or a call reports success only when that one did. */
  ghost predicate TrueResult(u: Unit, a: Activation)
    requires a.functionId in u
  {
    var body := u[a.functionId];
    a.succeeded && Returned(u, a) ==>
      && (forall k: nat | k < |body.joins| && body.joins[k].returnsResult ::
            exists j: nat :: Waited(a, body.joins[k].point, |a.trace|, j))
      && (forall k: nat | k < |body.calls| && body.calls[k].returnsResult ::
            exists j: nat :: CalledWithSuccess(u, a, body.calls[k].point, |a.trace|, j))
  }

  /** The callee's frame names globals as the caller does, and its parameters as what the call passes. */
  ghost predicate Binds(site: CallSite, caller: Activation, callee: Activation) {
    && callee.functionId == site.callee
    && (forall handle: Handle | handle.root.Global? :: callee.place(handle) == caller.place(handle))
    && (forall handle: Handle | handle.root.Parameter? && handle.root.functionId == site.callee
                        && handle.root.index < |site.args| && site.args[handle.root.index].Some? ::
          var arg := site.args[handle.root.index].value;
          callee.place(handle) == caller.place(Handle(arg.root, arg.steps + handle.steps)))
  }

  /** The activation and all those below it run as the program says. */
  ghost predicate IsActivation(u: Unit, a: Activation)
    decreases a
  {
    && a.functionId in u && IsRun(u[a.functionId], a.trace) && |a.calls| == |a.trace|
    && TruePlaces(u, a) && TrueResult(u, a)
    && forall j | 0 <= j < |a.calls| && a.calls[j].Some? ::
         && IsActivation(u, a.calls[j].value)
         && forall k | 0 <= k < |u[a.functionId].calls| && u[a.functionId].calls[k].point == a.trace[j] ::
              Binds(u[a.functionId].calls[k], a, a.calls[j].value)
  }

  /** A join at one of the function's sites waited for the thread held there. */
  ghost predicate JoinsInPlace(u: Unit, a: Activation, storage: int) {
    a.functionId in u && exists k: nat, j: nat | k < |u[a.functionId].joins| ::
      Waited(a, u[a.functionId].joins[k].point, |a.trace|, j) && a.place(u[a.functionId].joins[k].handle) == storage
  }

  /** The activation, or one below it, waited for the thread held there. */
  ghost predicate Joins(u: Unit, a: Activation, storage: int)
    decreases a
  {
    JoinsInPlace(u, a, storage) || exists j | 0 <= j < |a.calls| && a.calls[j].Some? :: Joins(u, a.calls[j].value, storage)
  }

  // ----- the proof ---------------------------------------------------------------------------------

  /** A run to a normal return passes every place that covers it. */
  lemma PassesCovered(u: Unit, a: Activation, success: JoinSuccess) returns (i: nat)
    requires a.functionId in u && ValidCovers(u[a.functionId]) && IsRun(u[a.functionId], a.trace)
    requires Returned(u, a) && u[a.functionId].OnEveryPath(success)
    ensures Passes(a.trace, success, i) && i <= |a.trace|
  {
    var body, last := u[a.functionId], |a.trace| - 1;
    var exit := a.trace[last];
    assert (success, exit) in body.covers;
    hide LiveDominance.IsTrace, LiveDominance.Dominates, LiveDominance.EdgeDominates;
    match success
    case AfterCall(call) =>
      var k := LiveDominance.DominatorBefore(body.graph, AllBlocks(body.graph), call, a.trace, last);
      i := k + 1;
    case AlongEdge(branch, successor) =>
      i := LiveDominance.EdgeBefore(body.graph, AllBlocks(body.graph), branch, successor, a.trace, last);
  }

  /** The same storage, named in the callee and in the caller. */
  lemma SameStorage(site: CallSite, caller: Activation, callee: Activation, handle: Handle)
    requires Binds(site, caller, callee) && HandleAtCaller(handle, site.callee, site.args).Some?
    ensures callee.place(handle) == caller.place(HandleAtCaller(handle, site.callee, site.args).value)
  {
  }

  lemma WaitedJoins(u: Unit, a: Activation, k: nat, i: nat, j: nat)
    requires a.functionId in u && k < |u[a.functionId].joins| && Waited(a, u[a.functionId].joins[k].point, i, j)
    ensures Joins(u, a, a.place(u[a.functionId].joins[k].handle))
  {
    assert Waited(a, u[a.functionId].joins[k].point, |a.trace|, j);
    assert JoinsInPlace(u, a, a.place(u[a.functionId].joins[k].handle));
  }

  /** What a nested activation joined, its caller has joined. */
  lemma CallJoins(u: Unit, a: Activation, k: nat, j: nat, inner: Handle, handle: Handle)
    requires IsActivation(u, a) && k < |u[a.functionId].calls| && j < |a.trace|
    requires a.trace[j] == u[a.functionId].calls[k].point && a.calls[j].Some?
    requires HandleAtCaller(inner, u[a.functionId].calls[k].callee, u[a.functionId].calls[k].args) == Some(handle)
    requires Joins(u, a.calls[j].value, a.calls[j].value.place(inner))
    ensures Joins(u, a, a.place(handle))
  {
    hide TruePlaces, TrueResult, IsRun, JoinsInPlace, HandleAtCaller, Binds;
    SameStorage(u[a.functionId].calls[k], a, a.calls[j].value, inner);
  }

  /** The callee handle behind one its caller was given. */
  lemma Behind(handles: set<Handle>, site: CallSite, handle: Handle) returns (inner: Handle)
    requires handle in AtCaller(handles, site)
    ensures inner in handles && HandleAtCaller(inner, site.callee, site.args) == Some(handle)
  {
    inner :| inner in handles && HandleAtCaller(inner, site.callee, site.args) == Some(handle);
  }

  /** The summaries hold of one activation. */
  ghost predicate Keeps(u: Unit, s: Summaries, a: Activation)
    requires a.functionId in s
  {
    && (forall handle | handle in s[a.functionId].joined :: Joins(u, a, a.place(handle)))
    && (a.succeeded ==> forall handle | handle in s[a.functionId].reported :: Joins(u, a, a.place(handle)))
  }

  /** They hold of every returned activation its calls made. */
  ghost predicate CallsKeep(u: Unit, s: Summaries, a: Activation) {
    forall j | 0 <= j < |a.calls| && a.calls[j].Some? && Returned(u, a.calls[j].value) ::
      a.calls[j].value.functionId in s && Keeps(u, s, a.calls[j].value)
  }

  ghost predicate ValidUnit(u: Unit) {
    forall f | f in u :: ValidCovers(u[f])
  }

  lemma JoinedHere(u: Unit, a: Activation, k: nat, handle: Handle)
    requires ValidUnit(u) && IsActivation(u, a) && Returned(u, a) && k < |u[a.functionId].joins|
    requires handle in FromJoin(u[a.functionId], u[a.functionId].joins[k]).joined
    ensures Joins(u, a, a.place(handle))
  {
    hide IsRun, ValidCovers, TrueResult, Joins, Returned, Body.OnEveryPath, Passes, IsNameable;
    var join := u[a.functionId].joins[k];
    var i := PassesCovered(u, a, join.success.value);
    var j: nat :| Waited(a, join.point, i, j);
    WaitedJoins(u, a, k, i, j);
  }

  lemma ReportedHere(u: Unit, a: Activation, k: nat, handle: Handle)
    requires IsActivation(u, a) && Returned(u, a) && a.succeeded && k < |u[a.functionId].joins|
    requires handle in FromJoin(u[a.functionId], u[a.functionId].joins[k]).reported
    ensures Joins(u, a, a.place(handle))
  {
    hide IsRun, TruePlaces, Joins, Returned, Body.OnEveryPath, IsNameable;
    var join := u[a.functionId].joins[k];
    var j: nat :| Waited(a, join.point, |a.trace|, j);
    WaitedJoins(u, a, k, |a.trace|, j);
  }

  lemma SuccessfulCallJoins(u: Unit, s: Summaries, a: Activation, k: nat, handle: Handle, before: nat, j: nat)
    requires IsActivation(u, a) && CallsKeep(u, s, a) && k < |u[a.functionId].calls| && u[a.functionId].calls[k].callee in s
    requires handle in AtCaller(s[u[a.functionId].calls[k].callee].reported, u[a.functionId].calls[k])
    requires CalledWithSuccess(u, a, u[a.functionId].calls[k].point, before, j)
    ensures Joins(u, a, a.place(handle))
  {
    hide IsRun, TruePlaces, TrueResult, Joins, Returned, AtCaller, HandleAtCaller;
    var site := u[a.functionId].calls[k];
    assert Binds(site, a, a.calls[j].value);
    var inner := Behind(s[site.callee].reported, site, handle);
    CallJoins(u, a, k, j, inner, handle);
  }

  lemma ReturnedCallJoins(u: Unit, s: Summaries, a: Activation, k: nat, handle: Handle, before: nat, j: nat)
    requires IsActivation(u, a) && CallsKeep(u, s, a) && k < |u[a.functionId].calls| && u[a.functionId].calls[k].callee in s
    requires handle in AtCaller(s[u[a.functionId].calls[k].callee].joined, u[a.functionId].calls[k])
    requires CalledAndReturned(u, a, u[a.functionId].calls[k].point, before, j)
    ensures Joins(u, a, a.place(handle))
  {
    hide IsRun, TruePlaces, TrueResult, Joins, Returned, AtCaller, HandleAtCaller;
    var site := u[a.functionId].calls[k];
    assert Binds(site, a, a.calls[j].value);
    var inner := Behind(s[site.callee].joined, site, handle);
    CallJoins(u, a, k, j, inner, handle);
  }

  lemma JoinedThroughCall(u: Unit, s: Summaries, a: Activation, k: nat, handle: Handle)
    requires ValidUnit(u) && IsActivation(u, a) && Returned(u, a) && CallsKeep(u, s, a)
    requires JoinedByCall(u, s, a.functionId, k, handle)
    ensures Joins(u, a, a.place(handle))
  {
    hide IsRun, ValidCovers, TrueResult, Joins, Returned, AtCaller, Body.OnEveryPath, CallsKeep, CalledAndReturned,
         CalledWithSuccess, Passes;
    var body := u[a.functionId];
    var site := body.calls[k];
    if site.success.Some? && body.OnEveryPath(site.success.value) && handle in AtCaller(s[site.callee].reported, site) {
      var i := PassesCovered(u, a, site.success.value);
      var j: nat :| CalledWithSuccess(u, a, site.point, i, j);
      SuccessfulCallJoins(u, s, a, k, handle, i, j);
    } else {
      var i := PassesCovered(u, a, site.returned);
      var j: nat :| CalledAndReturned(u, a, site.point, i, j);
      ReturnedCallJoins(u, s, a, k, handle, i, j);
    }
  }

  lemma ReportedThroughCall(u: Unit, s: Summaries, a: Activation, k: nat, handle: Handle)
    requires IsActivation(u, a) && Returned(u, a) && a.succeeded && CallsKeep(u, s, a)
    requires ReportedByCall(u, s, a.functionId, k, handle)
    ensures Joins(u, a, a.place(handle))
  {
    hide IsRun, TruePlaces, Joins, Returned, AtCaller, Body.OnEveryPath, CallsKeep, CalledWithSuccess;
    var site := u[a.functionId].calls[k];
    var j: nat :| CalledWithSuccess(u, a, site.point, |a.trace|, j);
    SuccessfulCallJoins(u, s, a, k, handle, |a.trace|, j);
  }

  /** An activation that returned has joined every handle in its function's joined summary, itself or however deep in
      its calls; one that also reports success has joined those in the reported summary. */
  lemma {:induction false} SummariesHold(u: Unit, s: Summaries, a: Activation)
    requires ValidUnit(u) && Accounted(u, s) && s.Keys == u.Keys
    requires IsActivation(u, a) && Returned(u, a)
    ensures Keeps(u, s, a)
    decreases a
  {
    hide IsRun, ValidUnit, TruePlaces, TrueResult, Joins, Returned, JoinedByCall, ReportedByCall, FromJoin, Binds;
    forall j | 0 <= j < |a.calls| && a.calls[j].Some? && Returned(u, a.calls[j].value)
      ensures a.calls[j].value.functionId in s && Keeps(u, s, a.calls[j].value)
    {
      SummariesHold(u, s, a.calls[j].value);
    }
    assert CallsKeep(u, s, a);
    hide IsActivation, CallsKeep;
    forall handle | handle in s[a.functionId].joined
      ensures Joins(u, a, a.place(handle))
    {
      assert AccountsForJoined(u, s, a.functionId, handle);
      if k: nat :| k < |u[a.functionId].joins| && handle in FromJoin(u[a.functionId], u[a.functionId].joins[k]).joined {
        JoinedHere(u, a, k, handle);
      } else {
        var k: nat :| JoinedByCall(u, s, a.functionId, k, handle);
        JoinedThroughCall(u, s, a, k, handle);
      }
    }
    if a.succeeded {
      forall handle | handle in s[a.functionId].reported
        ensures Joins(u, a, a.place(handle))
      {
        assert AccountsForReported(u, s, a.functionId, handle);
        if k: nat :| k < |u[a.functionId].joins| && handle in FromJoin(u[a.functionId], u[a.functionId].joins[k]).reported {
          ReportedHere(u, a, k, handle);
        } else {
          var k: nat :| ReportedByCall(u, s, a.functionId, k, handle);
          ReportedThroughCall(u, s, a, k, handle);
        }
      }
    }
  }
}
