/** The handle summaries, said of chains of calls: exactly the handles some chain starts, joins or reports. */
module SummaryDepths {
  import opened ControlFlow
  import opened Handles
  import opened HandleSummaries
  import opened ThreadFlood

  /** The place dominates every normal return. */
  ghost predicate CoversReturns(body: Body, place: JoinSuccess) {
    forall exit :: exit in body.exits ==> (place, exit) in body.covers
  }

  ghost predicate CanBeMatched(handle: Handle) {
    |handle.steps| <= 16 && forall i | 0 <= i < |handle.steps| :: handle.steps[i] != "*"
  }

  ghost predicate Arrives(site: CallSite, inner: Handle, handle: Handle) {
    HandleAtCaller(inner, site.callee, site.args) == Some(handle)
  }

  /** Within `depth` calls the function starts, or moves in, a thread whose handle arrives as `handle`. */
  ghost predicate StartsWithin(u: Unit, depth: nat, f: string, handle: Handle)
    decreases depth, 1
  {
    f in u && (|| (exists i: nat | i < |u[f].spawns| :: u[f].spawns[i].handle == handle)
               || (exists i: nat | i < |u[f].adoptions| :: u[f].adoptions[i].handle == handle)
               || (exists c: nat, inner :: StartsThrough(u, depth, f, c, inner, handle)))
  }

  ghost predicate StartsThrough(u: Unit, depth: nat, f: string, c: nat, inner: Handle, handle: Handle)
    decreases depth, 0
  {
    && f in u && c < |u[f].calls| && depth > 0 && StartsWithin(u, depth - 1, u[f].calls[c].callee, inner)
    && Arrives(u[f].calls[c], inner, handle)
  }

  /** Within `depth` calls the function hands back the status of a join of the handle. */
  ghost predicate ReportsWithin(u: Unit, depth: nat, f: string, handle: Handle)
    decreases depth, 1
  {
    f in u && (|| (exists i: nat | i < |u[f].joins| ::
                     u[f].joins[i].handle == handle && CanBeMatched(handle) && u[f].joins[i].returnsResult)
               || (exists c: nat, inner :: ReportsThrough(u, depth, f, c, inner, handle) && u[f].calls[c].returnsResult))
  }

  ghost predicate ReportsThrough(u: Unit, depth: nat, f: string, c: nat, inner: Handle, handle: Handle)
    decreases depth, 0
  {
    && f in u && c < |u[f].calls| && depth > 0 && ReportsWithin(u, depth - 1, u[f].calls[c].callee, inner)
    && Arrives(u[f].calls[c], inner, handle)
  }

  /** Within `depth` calls the function joins the handle at places every normal return has passed. */
  ghost predicate JoinsWithin(u: Unit, depth: nat, f: string, handle: Handle)
    decreases depth, 1
  {
    f in u && (|| (exists i: nat | i < |u[f].joins| ::
                     && u[f].joins[i].handle == handle && CanBeMatched(handle) && u[f].joins[i].success.Some?
                     && CoversReturns(u[f], u[f].joins[i].success.value))
               || (exists c: nat, inner :: ReportsThrough(u, depth, f, c, inner, handle) && JoinsByStatus(u[f], c))
               || (exists c: nat, inner :: JoinsThrough(u, depth, f, c, inner, handle)
                     && CoversReturns(u[f], u[f].calls[c].returned)))
  }

  /** The status of the call reads as success on the way to every normal return. */
  ghost predicate JoinsByStatus(body: Body, c: nat) {
    c < |body.calls| && body.calls[c].success.Some? && CoversReturns(body, body.calls[c].success.value)
  }

  ghost predicate JoinsThrough(u: Unit, depth: nat, f: string, c: nat, inner: Handle, handle: Handle)
    decreases depth, 0
  {
    && f in u && c < |u[f].calls| && depth > 0 && JoinsWithin(u, depth - 1, u[f].calls[c].callee, inner)
    && Arrives(u[f].calls[c], inner, handle)
  }

  ghost predicate SomeStart(u: Unit, f: string, handle: Handle) {
    exists depth: nat :: StartsWithin(u, depth, f, handle)
  }

  ghost predicate SomeReport(u: Unit, f: string, handle: Handle) {
    exists depth: nat :: ReportsWithin(u, depth, f, handle)
  }

  ghost predicate SomeJoin(u: Unit, f: string, handle: Handle) {
    exists depth: nat :: JoinsWithin(u, depth, f, handle)
  }

  /** The summaries are exactly what chains of calls do. */
  ghost predicate SaysWhatCallsDo(u: Unit, s: Summaries) {
    && (forall f, handle | f in u :: f in s && (handle in s[f].started <==> SomeStart(u, f, handle)))
    && (forall f, handle | f in u :: f in s && (handle in s[f].reported <==> SomeReport(u, f, handle)))
    && (forall f, handle | f in u :: f in s && (handle in s[f].joined <==> SomeJoin(u, f, handle)))
  }

  // ----- everything a chain does is in the summaries -----------------------------------------------

  lemma InAtCaller(handles: set<Handle>, site: CallSite, inner: Handle, handle: Handle)
    requires inner in handles && Arrives(site, inner, handle)
    ensures handle in AtCaller(handles, site)
  {
    hide HandleAtCaller;
  }

  lemma MatchedIsNameable(handle: Handle)
    ensures CanBeMatched(handle) <==> IsNameable(handle)
  {
    assert forall step :: step in handle.steps <==> exists i | 0 <= i < |handle.steps| :: handle.steps[i] == step;
  }

  lemma {:induction false} StartIsSaid(u: Unit, s: Summaries, depth: nat, f: string, handle: Handle)
    requires Stable(u, s) && StartsWithin(u, depth, f, handle)
    ensures f in s && handle in s[f].started
    decreases depth
  {
    hide FromJoin, AtCaller, Body.OnEveryPath, Arrives;
    assert StableAt(u, s, f);
    var starts := u[f].Starts();
    assert forall i: nat | i < |u[f].spawns| :: starts[i] == u[f].spawns[i];
    assert forall i: nat | i < |u[f].adoptions| :: starts[|u[f].spawns| + i] == u[f].adoptions[i];
    if c: nat, inner :| StartsThrough(u, depth, f, c, inner, handle) {
      StartIsSaid(u, s, depth - 1, u[f].calls[c].callee, inner);
      InAtCaller(s[u[f].calls[c].callee].started, u[f].calls[c], inner, handle);
    }
  }

  lemma {:induction false} ReportIsSaid(u: Unit, s: Summaries, depth: nat, f: string, handle: Handle)
    requires Stable(u, s) && ReportsWithin(u, depth, f, handle)
    ensures f in s && handle in s[f].reported
    decreases depth
  {
    hide AtCaller, Body.OnEveryPath, Arrives, CanBeMatched, IsNameable;
    assert StableAt(u, s, f);
    MatchedIsNameable(handle);
    if c: nat, inner :| ReportsThrough(u, depth, f, c, inner, handle) && u[f].calls[c].returnsResult {
      ReportIsSaid(u, s, depth - 1, u[f].calls[c].callee, inner);
      InAtCaller(s[u[f].calls[c].callee].reported, u[f].calls[c], inner, handle);
    } else {
      var i: nat :| i < |u[f].joins| && u[f].joins[i].handle == handle && u[f].joins[i].returnsResult;
      assert FromJoin(u[f], u[f].joins[i]).Within(s[f]);
    }
  }

  lemma CoversIsOnEveryPath(body: Body, place: JoinSuccess)
    ensures CoversReturns(body, place) <==> body.OnEveryPath(place)
  {
  }

  lemma {:induction false} JoinIsSaid(u: Unit, s: Summaries, depth: nat, f: string, handle: Handle)
    requires Stable(u, s) && JoinsWithin(u, depth, f, handle)
    ensures f in s && handle in s[f].joined
    decreases depth
  {
    hide AtCaller, Body.OnEveryPath, Arrives, CanBeMatched, IsNameable, CoversReturns;
    assert StableAt(u, s, f);
    MatchedIsNameable(handle);
    if c: nat, inner :| ReportsThrough(u, depth, f, c, inner, handle) && JoinsByStatus(u[f], c) {
      ReportIsSaid(u, s, depth - 1, u[f].calls[c].callee, inner);
      InAtCaller(s[u[f].calls[c].callee].reported, u[f].calls[c], inner, handle);
      CoversIsOnEveryPath(u[f], u[f].calls[c].success.value);
      assert FromCall(u[f], u[f].calls[c], s[u[f].calls[c].callee]).Within(s[f]);
    } else if c: nat, inner :| JoinsThrough(u, depth, f, c, inner, handle) && CoversReturns(u[f], u[f].calls[c].returned) {
      JoinIsSaid(u, s, depth - 1, u[f].calls[c].callee, inner);
      InAtCaller(s[u[f].calls[c].callee].joined, u[f].calls[c], inner, handle);
      CoversIsOnEveryPath(u[f], u[f].calls[c].returned);
      assert FromCall(u[f], u[f].calls[c], s[u[f].calls[c].callee]).Within(s[f]);
    } else {
      var i: nat :| i < |u[f].joins| && u[f].joins[i].handle == handle && u[f].joins[i].success.Some?
                    && CoversReturns(u[f], u[f].joins[i].success.value);
      CoversIsOnEveryPath(u[f], u[f].joins[i].success.value);
      assert FromJoin(u[f], u[f].joins[i]).Within(s[f]);
    }
  }

  // ----- and nothing else --------------------------------------------------------------------------

  ghost function OnlyStarts(u: Unit, f: string, handles: set<Handle>): set<Handle> {
    set handle | handle in handles && SomeStart(u, f, handle)
  }

  ghost function OnlyReports(u: Unit, f: string, handles: set<Handle>): set<Handle> {
    set handle | handle in handles && SomeReport(u, f, handle)
  }

  ghost function OnlyJoins(u: Unit, f: string, handles: set<Handle>): set<Handle> {
    set handle | handle in handles && SomeJoin(u, f, handle)
  }

  /** What of the summaries chains of calls account for. */
  ghost function Traced(u: Unit, s: Summaries): Summaries {
    map f | f in s :: Summary(OnlyStarts(u, f, s[f].started), OnlyJoins(u, f, s[f].joined), OnlyReports(u, f, s[f].reported))
  }

  lemma StartDeeper(u: Unit, f: string, c: nat, inner: Handle, handle: Handle)
    requires f in u && c < |u[f].calls| && SomeStart(u, u[f].calls[c].callee, inner) && Arrives(u[f].calls[c], inner, handle)
    ensures SomeStart(u, f, handle)
  {
    hide Arrives;
    var depth: nat :| StartsWithin(u, depth, u[f].calls[c].callee, inner);
    assert StartsThrough(u, depth + 1, f, c, inner, handle);
    assert StartsWithin(u, depth + 1, f, handle);
  }

  lemma ReportDeeper(u: Unit, f: string, c: nat, inner: Handle, handle: Handle)
    requires f in u && c < |u[f].calls| && SomeReport(u, u[f].calls[c].callee, inner) && Arrives(u[f].calls[c], inner, handle)
    ensures u[f].calls[c].returnsResult ==> SomeReport(u, f, handle)
    ensures JoinsByStatus(u[f], c) ==> SomeJoin(u, f, handle)
  {
    hide Arrives, CoversReturns, CanBeMatched;
    var depth: nat :| ReportsWithin(u, depth, u[f].calls[c].callee, inner);
    assert ReportsThrough(u, depth + 1, f, c, inner, handle);
    if u[f].calls[c].returnsResult {
      assert ReportsWithin(u, depth + 1, f, handle);
    }
    if JoinsByStatus(u[f], c) {
      assert JoinsWithin(u, depth + 1, f, handle);
    }
  }

  lemma JoinDeeper(u: Unit, f: string, c: nat, inner: Handle, handle: Handle)
    requires f in u && c < |u[f].calls| && SomeJoin(u, u[f].calls[c].callee, inner) && Arrives(u[f].calls[c], inner, handle)
    requires CoversReturns(u[f], u[f].calls[c].returned)
    ensures SomeJoin(u, f, handle)
  {
    hide Arrives, CoversReturns, CanBeMatched;
    var depth: nat :| JoinsWithin(u, depth, u[f].calls[c].callee, inner);
    assert JoinsThrough(u, depth + 1, f, c, inner, handle);
    assert JoinsWithin(u, depth + 1, f, handle);
  }

  lemma FromAtCaller(handles: set<Handle>, site: CallSite, handle: Handle) returns (inner: Handle)
    requires handle in AtCaller(handles, site)
    ensures inner in handles && Arrives(site, inner, handle)
  {
    hide HandleAtCaller;
    inner :| inner in handles && HandleAtCaller(inner, site.callee, site.args) == Some(handle);
  }

  /** What a call adds from traced summaries is traced. */
  lemma CallStaysTraced(u: Unit, s: Summaries, f: string, c: nat)
    requires Stable(u, s) && f in u && f in s && c < |u[f].calls| && u[f].calls[c].callee in s
    ensures FromCall(u[f], u[f].calls[c], Traced(u, s)[u[f].calls[c].callee]).Within(Traced(u, s)[f])
  {
    hide Arrives, SomeStart, SomeReport, SomeJoin, Body.OnEveryPath, AtCaller, CoversReturns, Stable;
    var site, t := u[f].calls[c], Traced(u, s);
    var callee := site.callee;
    var more, known := FromCall(u[f], site, t[callee]), FromCall(u[f], site, s[callee]);
    assert t[callee].Within(s[callee]);
    FromCallMonotone(u[f], site, t[callee], s[callee]);
    CallIsIn(u, s, f, c);
    forall handle | handle in more.started
      ensures SomeStart(u, f, handle)
    {
      var inner := FromAtCaller(t[callee].started, site, handle);
      StartDeeper(u, f, c, inner, handle);
    }
    forall handle | handle in more.reported
      ensures SomeReport(u, f, handle)
    {
      var inner := FromAtCaller(t[callee].reported, site, handle);
      ReportDeeper(u, f, c, inner, handle);
    }
    forall handle | handle in more.joined
      ensures SomeJoin(u, f, handle)
    {
      if site.success.Some? && u[f].OnEveryPath(site.success.value) && handle in AtCaller(t[callee].reported, site) {
        CoversIsOnEveryPath(u[f], site.success.value);
        var inner := FromAtCaller(t[callee].reported, site, handle);
        ReportDeeper(u, f, c, inner, handle);
      } else {
        CoversIsOnEveryPath(u[f], site.returned);
        var inner := FromAtCaller(t[callee].joined, site, handle);
        JoinDeeper(u, f, c, inner, handle);
      }
    }
  }

  lemma CallIsIn(u: Unit, s: Summaries, f: string, c: nat)
    requires Stable(u, s) && f in u && c < |u[f].calls|
    ensures f in s && u[f].calls[c].callee in s && FromCall(u[f], u[f].calls[c], s[u[f].calls[c].callee]).Within(s[f])
  {
    hide FromCall, FromJoin;
    assert StableAt(u, s, f);
  }

  lemma JoinStaysTraced(u: Unit, s: Summaries, f: string, i: nat)
    requires Stable(u, s) && f in u && f in s && i < |u[f].joins|
    ensures FromJoin(u[f], u[f].joins[i]).Within(Traced(u, s)[f])
  {
    hide Body.OnEveryPath, CanBeMatched, IsNameable, FromCall;
    assert StableAt(u, s, f);
    var join := u[f].joins[i];
    MatchedIsNameable(join.handle);
    assert FromJoin(u[f], join).Within(s[f]);
    if IsNameable(join.handle) && join.success.Some? && u[f].OnEveryPath(join.success.value) {
      CoversIsOnEveryPath(u[f], join.success.value);
      assert JoinsWithin(u, 0, f, join.handle);
    }
    if IsNameable(join.handle) && join.returnsResult {
      assert ReportsWithin(u, 0, f, join.handle);
    }
  }

  lemma StartStaysTraced(u: Unit, s: Summaries, f: string, i: nat)
    requires Stable(u, s) && f in u && f in s && i < |u[f].Starts()|
    ensures u[f].Starts()[i].handle in Traced(u, s)[f].started
  {
    hide FromJoin, FromCall;
    assert StableAt(u, s, f);
    assert i < |u[f].spawns| ==> u[f].Starts()[i] == u[f].spawns[i];
    assert i >= |u[f].spawns| ==> u[f].Starts()[i] == u[f].adoptions[i - |u[f].spawns|];
    assert StartsWithin(u, 0, f, u[f].Starts()[i].handle);
  }

  lemma TracedIsStable(u: Unit, s: Summaries)
    requires Stable(u, s) && s.Keys == u.Keys
    ensures Stable(u, Traced(u, s))
  {
    hide FromJoin, FromCall, Traced;
    assert Traced(u, s).Keys == s.Keys by { TracedKeys(u, s); }
    forall f | f in u
      ensures StableAt(u, Traced(u, s), f)
    {
      assert StableAt(u, s, f);
      forall i: nat | i < |u[f].Starts()|
        ensures u[f].Starts()[i].handle in Traced(u, s)[f].started
      {
        StartStaysTraced(u, s, f, i);
      }
      forall i: nat | i < |u[f].joins|
        ensures FromJoin(u[f], u[f].joins[i]).Within(Traced(u, s)[f])
      {
        JoinStaysTraced(u, s, f, i);
      }
      forall c: nat | c < |u[f].calls|
        ensures FromCall(u[f], u[f].calls[c], Traced(u, s)[u[f].calls[c].callee]).Within(Traced(u, s)[f])
      {
        CallStaysTraced(u, s, f, c);
      }
    }
  }

  lemma TracedKeys(u: Unit, s: Summaries)
    ensures Traced(u, s).Keys == s.Keys
  {
  }

  /** The least summaries hold exactly the handles some chain of calls starts, joins on every way out, or reports. */
  lemma SummariesSayWhatCallsDo(u: Unit, s: Summaries)
    requires s.Keys == u.Keys && Stable(u, s) && BelowEveryStable(u, s)
    ensures SaysWhatCallsDo(u, s)
  {
    hide Stable, StartsWithin, ReportsWithin, JoinsWithin;
    TracedIsStable(u, s);
    assert Below(s, Traced(u, s));
    forall f, handle | f in u
      ensures handle in s[f].started <==> SomeStart(u, f, handle)
      ensures handle in s[f].reported <==> SomeReport(u, f, handle)
      ensures handle in s[f].joined <==> SomeJoin(u, f, handle)
    {
      assert s[f].Within(Traced(u, s)[f]);
      if depth: nat :| StartsWithin(u, depth, f, handle) {
        StartIsSaid(u, s, depth, f, handle);
      }
      if depth: nat :| ReportsWithin(u, depth, f, handle) {
        ReportIsSaid(u, s, depth, f, handle);
      }
      if depth: nat :| JoinsWithin(u, depth, f, handle) {
        JoinIsSaid(u, s, depth, f, handle);
      }
    }
  }
}
