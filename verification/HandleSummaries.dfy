/** What each function does to the thread handles it names, in place or through the calls it makes. */
module HandleSummaries {
  import opened ControlFlow
  import opened Handles
  import opened ThreadFlood

  /** `success` is where the join has certainly waited, if anywhere; `returned`, whether every return hands back the
      status of the join. */
  datatype JoinSite = JoinSite(point: Point, handle: Handle, success: Option<JoinSuccess>, returnsResult: bool)

  /** A direct call of a function of the unit: where it has returned, and where its result reads as the success of a
      join, if anywhere. */
  datatype CallSite = CallSite(point: Point, callee: string, args: seq<Option<Handle>>, returned: JoinSuccess,
                               success: Option<JoinSuccess>, returnsResult: bool)

  /** Where a function starts a thread into a handle, or moves one into it. */
  datatype StartSite = StartSite(point: Point, handle: Handle)

  /** A function: its graph and sites; `covers` holds the normal returns each place dominates. */
  datatype Body = Body(graph: Function, spawns: seq<StartSite>, adoptions: seq<StartSite>, joins: seq<JoinSite>,
                       calls: seq<CallSite>, exits: set<Point>, covers: set<(JoinSuccess, Point)>)
  {
    function Starts(): seq<StartSite> {
      spawns + adoptions
    }

    predicate OnEveryPath(success: JoinSuccess) {
      forall exit | exit in exits :: (success, exit) in covers
    }
  }

  type Unit = map<string, Body>

  predicate CalleesKnown(u: Unit) {
    forall f | f in u :: forall i | 0 <= i < |u[f].calls| :: u[f].calls[i].callee in u
  }

  /** Handles the function may start a thread into, those it joins on every path to a normal return, and those it
      joins, returning the status of that join as its own. */
  datatype Summary = Summary(started: set<Handle>, joined: set<Handle>, reported: set<Handle>) {
    function With(other: Summary): Summary {
      Summary(started + other.started, joined + other.joined, reported + other.reported)
    }

    predicate Within(other: Summary) {
      started <= other.started && joined <= other.joined && reported <= other.reported
    }
  }

  const Nothing: Summary := Summary({}, {}, {})

  type Summaries = map<string, Summary>

  ghost predicate Below(s: Summaries, t: Summaries) {
    forall f | f in s :: f in t && s[f].Within(t[f])
  }

  // ----- one pass ----------------------------------------------------------------------------------

  function AtCaller(handles: set<Handle>, site: CallSite): set<Handle> {
    set handle | handle in handles && HandleAtCaller(handle, site.callee, site.args).Some? ::
      HandleAtCaller(handle, site.callee, site.args).value
  }

  /** What one call adds to its caller's summary. */
  function FromCall(body: Body, site: CallSite, callee: Summary): Summary {
    var reported := AtCaller(callee.reported, site);
    Summary(AtCaller(callee.started, site),
            (if site.success.Some? && body.OnEveryPath(site.success.value) then reported else {})
              + (if body.OnEveryPath(site.returned) then AtCaller(callee.joined, site) else {}),
            if site.returnsResult then reported else {})
  }

  function FromJoin(body: Body, join: JoinSite): Summary {
    if !IsNameable(join.handle) then Nothing
    else Summary({}, if join.success.Some? && body.OnEveryPath(join.success.value) then {join.handle} else {},
                 if join.returnsResult then {join.handle} else {})
  }

  lemma FromCallMonotone(body: Body, site: CallSite, callee: Summary, more: Summary)
    requires callee.Within(more)
    ensures FromCall(body, site, callee).Within(FromCall(body, site, more))
  {
    hide HandleAtCaller, Body.OnEveryPath;
    assert AtCaller(callee.started, site) <= AtCaller(more.started, site);
    assert AtCaller(callee.joined, site) <= AtCaller(more.joined, site);
    assert AtCaller(callee.reported, site) <= AtCaller(more.reported, site);
  }

  /** The summaries hold all that the sites and calls of the function give. */
  ghost predicate StableAt(u: Unit, s: Summaries, f: string)
    requires f in u
  {
    && f in s
    && (forall i | 0 <= i < |u[f].Starts()| :: u[f].Starts()[i].handle in s[f].started)
    && (forall i | 0 <= i < |u[f].joins| :: FromJoin(u[f], u[f].joins[i]).Within(s[f]))
    && (forall i | 0 <= i < |u[f].calls| ::
          u[f].calls[i].callee in s && FromCall(u[f], u[f].calls[i], s[u[f].calls[i].callee]).Within(s[f]))
  }

  ghost predicate Stable(u: Unit, s: Summaries) {
    forall f | f in u :: StableAt(u, s, f)
  }

  ghost predicate JoinedByCall(u: Unit, s: Summaries, f: string, i: nat, handle: Handle)
    requires f in u
  {
    && i < |u[f].calls| && u[f].calls[i].callee in s
    && handle in FromCall(u[f], u[f].calls[i], s[u[f].calls[i].callee]).joined
  }

  ghost predicate ReportedByCall(u: Unit, s: Summaries, f: string, i: nat, handle: Handle)
    requires f in u
  {
    && i < |u[f].calls| && u[f].calls[i].callee in s
    && handle in FromCall(u[f], u[f].calls[i], s[u[f].calls[i].callee]).reported
  }

  /** Some site of the function, or some call, accounts for the handle. */
  ghost predicate AccountsForJoined(u: Unit, s: Summaries, f: string, handle: Handle)
    requires f in u
  {
    || (exists i: nat | i < |u[f].joins| :: handle in FromJoin(u[f], u[f].joins[i]).joined)
    || (exists i: nat :: JoinedByCall(u, s, f, i, handle))
  }

  ghost predicate AccountsForReported(u: Unit, s: Summaries, f: string, handle: Handle)
    requires f in u
  {
    || (exists i: nat | i < |u[f].joins| :: handle in FromJoin(u[f], u[f].joins[i]).reported)
    || (exists i: nat :: ReportedByCall(u, s, f, i, handle))
  }

  ghost predicate Accounted(u: Unit, s: Summaries) {
    forall f | f in s :: f in u
      && (forall handle | handle in s[f].joined :: AccountsForJoined(u, s, f, handle))
      && (forall handle | handle in s[f].reported :: AccountsForReported(u, s, f, handle))
  }

  lemma AccountsGrow(u: Unit, s: Summaries, t: Summaries, f: string, handle: Handle)
    requires f in u && Below(s, t)
    ensures AccountsForJoined(u, s, f, handle) ==> AccountsForJoined(u, t, f, handle)
    ensures AccountsForReported(u, s, f, handle) ==> AccountsForReported(u, t, f, handle)
  {
    hide FromCall, FromJoin;
    forall i: nat
      ensures JoinedByCall(u, s, f, i, handle) ==> JoinedByCall(u, t, f, i, handle)
      ensures ReportedByCall(u, s, f, i, handle) ==> ReportedByCall(u, t, f, i, handle)
    {
      if i < |u[f].calls| && u[f].calls[i].callee in s {
        var callee := u[f].calls[i].callee;
        FromCallMonotone(u[f], u[f].calls[i], s[callee], t[callee]);
      }
    }
  }

  lemma AccountedGrows(u: Unit, s: Summaries, t: Summaries, f: string)
    requires Accounted(u, s) && Below(s, t) && f in u && f in s && t == s[f := t[f]]
    requires forall handle | handle in t[f].joined && handle !in s[f].joined :: AccountsForJoined(u, t, f, handle)
    requires forall handle | handle in t[f].reported && handle !in s[f].reported :: AccountsForReported(u, t, f, handle)
    ensures Accounted(u, t)
  {
    hide AccountsForJoined, AccountsForReported;
    forall g, handle | g in s
      ensures handle in s[g].joined ==> AccountsForJoined(u, t, g, handle)
      ensures handle in s[g].reported ==> AccountsForReported(u, t, g, handle)
    {
      AccountsGrow(u, s, t, g, handle);
    }
  }

  // ----- only finitely many handles ----------------------------------------------------------------

  ghost function SiteHandlesOf(body: Body): set<Handle> {
    (set i | 0 <= i < |body.Starts()| :: body.Starts()[i].handle) + (set i | 0 <= i < |body.joins| :: body.joins[i].handle)
  }

  ghost function SiteHandles(u: Unit): set<Handle> {
    set f, handle | f in u && handle in SiteHandlesOf(u[f]) :: handle
  }

  ghost function ArgsOf(site: CallSite): set<Handle> {
    set i | 0 <= i < |site.args| && site.args[i].Some? :: site.args[i].value
  }

  ghost function Args(u: Unit): set<Handle> {
    set f, i, handle | f in u && 0 <= i < |u[f].calls| && handle in ArgsOf(u[f].calls[i]) :: handle
  }

  ghost function AllHandles(u: Unit): set<Handle> {
    Universe(SiteHandles(u), Args(u))
  }

  ghost function All(u: Unit): Summary {
    Summary(AllHandles(u), AllHandles(u), AllHandles(u))
  }

  lemma SiteInUniverse(u: Unit, f: string, handle: Handle)
    requires f in u && handle in SiteHandlesOf(u[f])
    ensures handle in AllHandles(u)
  {
    assert handle in SiteHandles(u);
  }

  lemma FromJoinInUniverse(u: Unit, f: string, i: nat)
    requires f in u && i < |u[f].joins|
    ensures FromJoin(u[f], u[f].joins[i]).Within(All(u))
  {
    hide Body.OnEveryPath, Universe;
    assert u[f].joins[i].handle in SiteHandlesOf(u[f]);
    SiteInUniverse(u, f, u[f].joins[i].handle);
  }

  lemma AtCallerInUniverse(u: Unit, f: string, i: nat, handles: set<Handle>)
    requires f in u && i < |u[f].calls| && handles <= AllHandles(u)
    ensures AtCaller(handles, u[f].calls[i]) <= AllHandles(u)
  {
    hide HandleAtCaller, Universe;
    var site := u[f].calls[i];
    forall k | 0 <= k < |site.args| && site.args[k].Some?
      ensures site.args[k].value in Args(u)
    {
      assert site.args[k].value in ArgsOf(site);
    }
    forall handle | handle in handles
      ensures HandleAtCaller(handle, site.callee, site.args).Some? ==>
                HandleAtCaller(handle, site.callee, site.args).value in AllHandles(u)
    {
      TranslatedInUniverse(SiteHandles(u), Args(u), handle, site.callee, site.args);
    }
  }

  lemma FromCallInUniverse(u: Unit, f: string, i: nat, callee: Summary)
    requires f in u && i < |u[f].calls| && callee.Within(All(u))
    ensures FromCall(u[f], u[f].calls[i], callee).Within(All(u))
  {
    hide AtCaller, Body.OnEveryPath, AllHandles;
    AtCallerInUniverse(u, f, i, callee.started);
    AtCallerInUniverse(u, f, i, callee.joined);
    AtCallerInUniverse(u, f, i, callee.reported);
  }

  ghost predicate Bounded(u: Unit, s: Summaries) {
    s.Keys == u.Keys && forall f | f in s :: s[f].Within(All(u))
  }

  datatype Kind = Started | Joined | Reported

  datatype Entry = Entry(functionId: string, kind: Kind, handle: Handle)

  function Tagged(f: string, kind: Kind, handles: set<Handle>): set<Entry> {
    set handle | handle in handles :: Entry(f, kind, handle)
  }

  function EntriesOf(f: string, summary: Summary): set<Entry> {
    Tagged(f, Started, summary.started) + Tagged(f, Joined, summary.joined) + Tagged(f, Reported, summary.reported)
  }

  ghost function Entries(s: Summaries): set<Entry> {
    set f, e | f in s && e in EntriesOf(f, s[f]) :: e
  }

  lemma EntriesWithin(s: Summaries, t: Summaries)
    requires Below(s, t)
    ensures Entries(s) <= Entries(t)
  {
    forall f, e | f in s && e in EntriesOf(f, s[f])
      ensures e in EntriesOf(f, t[f])
    {
    }
  }

  lemma EntriesGrow(u: Unit, s: Summaries, t: Summaries, f: string)
    requires Bounded(u, s) && Bounded(u, t) && Below(s, t) && f in s && s[f] != t[f]
    ensures |Entries(s)| < |Entries(t)| <= |Entries(Top(u))|
  {
    hide Entries, AllHandles;
    EntriesWithin(s, t);
    EntriesWithin(t, Top(u));
    var e := NewEntry(f, s[f], t[f]);
    EntryIn(s, f, e);
    EntryIn(t, f, e);
    Smaller(Entries(s), Entries(t), e);
    NoLarger(Entries(t), Entries(Top(u)));
  }

  ghost function Top(u: Unit): Summaries {
    map f | f in u :: All(u)
  }

  lemma NewEntry(f: string, a: Summary, b: Summary) returns (e: Entry)
    requires a.Within(b) && a != b
    ensures e.functionId == f && e in EntriesOf(f, b) && e !in EntriesOf(f, a)
  {
    if a.started != b.started {
      var handle :| handle in b.started && handle !in a.started;
      e := Entry(f, Started, handle);
    } else if a.joined != b.joined {
      var handle :| handle in b.joined && handle !in a.joined;
      e := Entry(f, Joined, handle);
    } else {
      var handle :| handle in b.reported && handle !in a.reported;
      e := Entry(f, Reported, handle);
    }
  }

  lemma EntryIn(s: Summaries, f: string, e: Entry)
    requires f in s && e.functionId == f
    ensures e in Entries(s) <==> e in EntriesOf(f, s[f])
  {
  }

  lemma Smaller<T>(a: set<T>, b: set<T>, x: T)
    requires a <= b && x in b && x !in a
    ensures |a| < |b|
  {
    NoLarger(a, b - {x});
  }

  lemma NoLarger<T>(a: set<T>, b: set<T>)
    requires a <= b
    ensures |a| <= |b|
  {
    assert b == a + (b - a);
    assert |b| == |a| + |b - a|;
  }

  // ----- the iteration -----------------------------------------------------------------------------

  ghost predicate BelowEveryStable(u: Unit, s: Summaries) {
    forall t | Stable(u, t) :: Below(s, t)
  }

  /** What the iteration keeps: everything found is accounted for, and is in every stable solution. */
  ghost predicate Sound(u: Unit, s: Summaries) {
    Bounded(u, s) && Accounted(u, s) && BelowEveryStable(u, s)
  }

  function Added(s: Summaries, f: string, more: Summary): Summaries
    requires f in s
  {
    s[f := s[f].With(more)]
  }

  lemma AddedGrows(s: Summaries, f: string, more: Summary)
    requires f in s
    ensures Below(s, Added(s, f, more)) && more.Within(Added(s, f, more)[f])
  {
  }

  lemma AddedBelowStable(u: Unit, s: Summaries, f: string, more: Summary)
    requires BelowEveryStable(u, s) && f in s
    requires forall t | Stable(u, t) && Below(s, t) :: f in t && more.Within(t[f])
    ensures BelowEveryStable(u, Added(s, f, more))
  {
    hide Stable;
  }

  ghost predicate StartsInto(body: Body, handle: Handle) {
    exists i: nat | i < |body.Starts()| :: body.Starts()[i].handle == handle
  }

  lemma StartInUniverse(u: Unit, f: string, handle: Handle)
    requires f in u && StartsInto(u[f], handle)
    ensures handle in AllHandles(u)
  {
    hide Universe;
    var i: nat :| i < |u[f].Starts()| && u[f].Starts()[i].handle == handle;
    SiteInUniverse(u, f, handle);
  }

  lemma SitesBelowStable(u: Unit, f: string, t: Summaries)
    requires f in u && Stable(u, t)
    ensures f in t && forall handle | StartsInto(u[f], handle) :: handle in t[f].started
    ensures forall i | 0 <= i < |u[f].joins| :: FromJoin(u[f], u[f].joins[i]).Within(t[f])
  {
    hide FromJoin, FromCall;
    assert StableAt(u, t, f);
  }

  lemma AddedStarts(u: Unit, s: Summaries, f: string, handle: Handle)
    requires Sound(u, s) && f in u && StartsInto(u[f], handle)
    ensures Sound(u, Added(s, f, Summary({handle}, {}, {})))
  {
    hide FromJoin, FromCall, AllHandles, AccountsForJoined, AccountsForReported, Stable;
    var more := Summary({handle}, {}, {});
    StartInUniverse(u, f, handle);
    AddedGrows(s, f, more);
    forall t | Stable(u, t)
      ensures f in t && more.Within(t[f])
    {
      SitesBelowStable(u, f, t);
    }
    AddedBelowStable(u, s, f, more);
    AccountedGrows(u, s, Added(s, f, more), f);
  }

  lemma AddedJoin(u: Unit, s: Summaries, f: string, i: nat)
    requires Sound(u, s) && f in u && i < |u[f].joins|
    ensures Sound(u, Added(s, f, FromJoin(u[f], u[f].joins[i])))
  {
    hide FromJoin, FromCall, AllHandles, JoinedByCall, ReportedByCall, Stable;
    var more := FromJoin(u[f], u[f].joins[i]);
    FromJoinInUniverse(u, f, i);
    AddedGrows(s, f, more);
    forall t | Stable(u, t)
      ensures f in t && more.Within(t[f])
    {
      SitesBelowStable(u, f, t);
    }
    AddedBelowStable(u, s, f, more);
    AccountedGrows(u, s, Added(s, f, more), f);
  }

  lemma CallBelowStable(u: Unit, s: Summaries, f: string, i: nat, t: Summaries)
    requires f in u && i < |u[f].calls| && u[f].calls[i].callee in s && Below(s, t) && Stable(u, t)
    ensures f in t && FromCall(u[f], u[f].calls[i], s[u[f].calls[i].callee]).Within(t[f])
  {
    hide FromJoin, FromCall;
    var callee := u[f].calls[i].callee;
    FromCallMonotone(u[f], u[f].calls[i], s[callee], t[callee]);
    assert StableAt(u, t, f);
  }

  lemma AddedCall(u: Unit, s: Summaries, f: string, i: nat)
    requires Sound(u, s) && CalleesKnown(u) && f in u && i < |u[f].calls|
    ensures u[f].calls[i].callee in s
    ensures Sound(u, Added(s, f, FromCall(u[f], u[f].calls[i], s[u[f].calls[i].callee])))
  {
    hide FromJoin, FromCall, AllHandles, Stable;
    var callee := u[f].calls[i].callee;
    var more := FromCall(u[f], u[f].calls[i], s[callee]);
    FromCallInUniverse(u, f, i, s[callee]);
    AddedGrows(s, f, more);
    var t := Added(s, f, more);
    forall other | Stable(u, other) && Below(s, other)
      ensures f in other && more.Within(other[f])
    {
      CallBelowStable(u, s, f, i, other);
    }
    AddedBelowStable(u, s, f, more);
    forall handle
      ensures handle in more.joined ==> AccountsForJoined(u, t, f, handle)
      ensures handle in more.reported ==> AccountsForReported(u, t, f, handle)
    {
      assert handle in more.joined ==> JoinedByCall(u, s, f, i, handle);
      assert handle in more.reported ==> ReportedByCall(u, s, f, i, handle);
      AccountsGrow(u, s, t, f, handle);
    }
    AccountedGrows(u, s, t, f);
  }

  lemma BelowTransitive(s: Summaries, t: Summaries, v: Summaries)
    requires Below(s, t) && Below(t, v)
    ensures Below(s, v)
  {
  }

  /** The handles the function itself starts threads into, and those it joins. */
  method AddSites(u: Unit, s: Summaries, f: string) returns (t: Summaries)
    requires Sound(u, s) && f in u
    ensures Sound(u, t) && Below(s, t)
    ensures forall i | 0 <= i < |u[f].Starts()| :: u[f].Starts()[i].handle in t[f].started
    ensures forall i | 0 <= i < |u[f].joins| :: FromJoin(u[f], u[f].joins[i]).Within(t[f])
  {
    hide FromJoin, Accounted, BelowEveryStable, AllHandles;
    t := s;
    for i := 0 to |u[f].Starts()|
      invariant Sound(u, t) && Below(s, t)
      invariant forall k | 0 <= k < i :: u[f].Starts()[k].handle in t[f].started
    {
      var more := Summary({u[f].Starts()[i].handle}, {}, {});
      AddedStarts(u, t, f, u[f].Starts()[i].handle);
      AddedGrows(t, f, more);
      BelowTransitive(s, t, Added(t, f, more));
      t := Added(t, f, more);
    }
    for i := 0 to |u[f].joins|
      invariant Sound(u, t) && Below(s, t)
      invariant forall k | 0 <= k < |u[f].Starts()| :: u[f].Starts()[k].handle in t[f].started
      invariant forall k | 0 <= k < i :: FromJoin(u[f], u[f].joins[k]).Within(t[f])
    {
      var more := FromJoin(u[f], u[f].joins[i]);
      AddedJoin(u, t, f, i);
      AddedGrows(t, f, more);
      BelowTransitive(s, t, Added(t, f, more));
      t := Added(t, f, more);
    }
  }

  /** What the function's calls add; a recursive call reads the summary being extended. */
  method AddCalls(u: Unit, s: Summaries, f: string) returns (t: Summaries)
    requires Sound(u, s) && CalleesKnown(u) && f in u
    ensures Sound(u, t) && Below(s, t)
    ensures forall i | 0 <= i < |u[f].calls| :: FromCall(u[f], u[f].calls[i], s[u[f].calls[i].callee]).Within(t[f])
  {
    hide FromCall, Accounted, BelowEveryStable, AllHandles;
    t := s;
    for i := 0 to |u[f].calls|
      invariant Sound(u, t) && Below(s, t)
      invariant forall k | 0 <= k < i :: FromCall(u[f], u[f].calls[k], s[u[f].calls[k].callee]).Within(t[f])
    {
      var site := u[f].calls[i];
      var more := FromCall(u[f], site, t[site.callee]);
      AddedCall(u, t, f, i);
      AddedGrows(t, f, more);
      FromCallMonotone(u[f], site, s[site.callee], t[site.callee]);
      BelowTransitive(s, t, Added(t, f, more));
      t := Added(t, f, more);
    }
  }

  /** One function's turn in a round: if nothing is added, the summaries are stable there. */
  method Extend(u: Unit, s: Summaries, f: string) returns (t: Summaries)
    requires Sound(u, s) && CalleesKnown(u) && f in u
    ensures Sound(u, t) && Below(s, t)
    ensures t == s ==> StableAt(u, s, f)
  {
    hide FromCall, FromJoin, Accounted, BelowEveryStable, AllHandles;
    var middle := AddSites(u, s, f);
    t := AddCalls(u, middle, f);
    BelowTransitive(s, middle, t);
    if t == s {
      NothingBetween(s, middle);
    }
  }

  lemma NothingBetween(s: Summaries, middle: Summaries)
    requires Below(s, middle) && Below(middle, s)
    ensures middle == s
  {
    assert middle.Keys == s.Keys;
    forall f | f in s
      ensures s[f] == middle[f]
    {
      assert s[f].started == middle[f].started && s[f].joined == middle[f].joined && s[f].reported == middle[f].reported;
    }
  }

  lemma NothingIsSound(u: Unit)
    ensures Sound(u, map f | f in u :: Nothing)
  {
    hide FromCall, FromJoin;
    forall t | Stable(u, t)
      ensures Below(map f | f in u :: Nothing, t)
    {
      assert forall f | f in u :: StableAt(u, t, f);
    }
  }

  lemma Room(u: Unit, s: Summaries)
    requires Sound(u, s)
    ensures |Entries(s)| <= |Entries(Top(u))|
  {
    hide Entries, AllHandles, Accounted, BelowEveryStable;
    EntriesWithin(s, Top(u));
    NoLarger(Entries(s), Entries(Top(u)));
  }

  lemma Changes(s: Summaries, t: Summaries) returns (f: string)
    requires Below(s, t) && s.Keys == t.Keys && s != t
    ensures f in s && s[f] != t[f]
  {
    f :| f in s && s[f] != t[f];
  }

  /** Rounds over the functions, in any order, until one adds nothing. The iteration ends, recursion or not, at the
      least summaries that hold all the sites and calls give. */
  method SummarizeHandles(u: Unit, order: seq<string>) returns (s: Summaries)
    requires CalleesKnown(u) && forall f :: f in order <==> f in u
    ensures s.Keys == u.Keys && Stable(u, s) && Accounted(u, s) && BelowEveryStable(u, s)
  {
    hide StableAt, Accounted, BelowEveryStable, AllHandles, Entries;
    s := map f | f in u :: Nothing;
    NothingIsSound(u);
    var changed := true;
    while changed
      invariant Sound(u, s)
      invariant !changed ==> forall f | f in order :: StableAt(u, s, f)
      decreases |Entries(Top(u))| - |Entries(s)|, changed
    {
      ghost var before := s;
      changed := false;
      for i := 0 to |order|
        invariant Sound(u, s) && Below(before, s)
        invariant !changed ==> s == before && forall k | 0 <= k < i :: StableAt(u, s, order[k])
        invariant changed ==> s != before
      {
        assert order[i] in order;
        var more := Extend(u, s, order[i]);
        if more != s {
          if changed {
            StillChanged(before, s, more);
          }
          changed := true;
        }
        BelowTransitive(before, s, more);
        s := more;
      }
      if changed {
        var f := Changes(before, s);
        EntriesGrow(u, before, s, f);
      }
      Room(u, s);
    }
  }

  lemma StillChanged(before: Summaries, s: Summaries, more: Summaries)
    requires Below(before, s) && Below(s, more) && before != s
    ensures before != more
  {
    if before == more {
      NothingBetween(before, s);
    }
  }

  /** The result does not depend on the order the functions are visited in. */
  lemma LeastIsUnique(u: Unit, s: Summaries, t: Summaries)
    requires Stable(u, s) && BelowEveryStable(u, s) && Stable(u, t) && BelowEveryStable(u, t)
    ensures s == t
  {
    hide Stable;
    NothingBetween(s, t);
  }
}
