/** The calls that close a cycle of the call graph, found by an iterative search for its components. */
module CallCycles {
  import opened ControlFlow
  import opened Reachability

  datatype DirectCallSite = DirectCallSite(call: Option<nat>, caller: string, callee: string)

  /** A function being visited, and which of its callees comes next. */
  datatype Visit = Visit(name: string, nextCallee: nat)

  /** What the search keeps: the order functions were met in, the lowest order each is known to lead back to, the
      functions not yet in a component, and the visits under way. */
  datatype Search = Search(order: map<string, nat>, lowest: map<string, nat>, componentOf: map<string, nat>,
                           onStack: set<string>, stack: seq<string>, visits: seq<Visit>,
                           nextOrder: nat, nextComponent: nat)

  function Enter(s: Search, name: string): Search {
    s.(order := s.order[name := s.nextOrder], lowest := s.lowest[name := s.nextOrder],
       stack := s.stack + [name], onStack := s.onStack + {name},
       visits := s.visits + [Visit(name, 0)], nextOrder := s.nextOrder + 1)
  }

  function Top(s: Search): Visit
    requires s.visits != []
  {
    s.visits[|s.visits| - 1]
  }

  function Advance(s: Search): Search
    requires s.visits != []
  {
    s.(visits := s.visits[|s.visits| - 1 := Top(s).(nextCallee := Top(s).nextCallee + 1)])
  }

  function Lower(s: Search, name: string, value: nat): Search
    requires name in s.lowest
  {
    s.(lowest := s.lowest[name := if value < s.lowest[name] then value else s.lowest[name]])
  }

  // ----- what the search keeps -------------------------------------------------------------------

  ghost predicate StackShape(s: Search) {
    && (forall i | 0 <= i < |s.stack| :: s.stack[i] in s.onStack)
    && (forall a | a in s.onStack :: a in s.stack && a in s.order)
    && (forall i, j | 0 <= i < j < |s.stack| :: s.order[s.stack[i]] < s.order[s.stack[j]])
  }

  ghost predicate Domains(s: Search) {
    && s.lowest.Keys == s.order.Keys && s.order.Keys == s.componentOf.Keys + s.onStack
    && s.componentOf.Keys !! s.onStack
    && (forall a | a in s.order :: s.order[a] < s.nextOrder)
    && (forall a | a in s.componentOf :: s.componentOf[a] < s.nextComponent)
  }

  ghost predicate VisitsShape(s: Search) {
    && (forall k | 0 <= k < |s.visits| :: s.visits[k].name in s.onStack && s.visits[k].name in s.order)
    && (forall k, l | 0 <= k < l < |s.visits| :: s.order[s.visits[k].name] < s.order[s.visits[l].name])
  }

  ghost predicate Shape(s: Search) {
    Domains(s) && StackShape(s) && VisitsShape(s)
  }

  ghost predicate Visited(s: Search, a: string) {
    exists k | 0 <= k < |s.visits| :: s.visits[k].name == a
  }

  /** The call number `j` of `a` has been looked at. */
  ghost predicate Done(s: Search, a: string, j: nat) {
    forall k | 0 <= k < |s.visits| && s.visits[k].name == a :: j < s.visits[k].nextCallee
  }

  ghost predicate CalleesMet(g: Graph, s: Search) {
    forall a, j: nat | a in s.onStack && j < |Successors(g, a)| && Done(s, a, j) :: Successors(g, a)[j] in s.order
  }

  ghost predicate LeadsTo(g: Graph, s: Search, a: string, b: string) {
    b in s.onStack && b in s.order && a in s.lowest && s.order[b] == s.lowest[a] && Reaches(g, a, b)
  }

  ghost predicate LowestLed(g: Graph, s: Search, a: string)
    requires a in s.lowest && a in s.order
  {
    s.lowest[a] <= s.order[a] && exists b :: LeadsTo(g, s, a, b)
  }

  /** Each lowest order is that of a function on the stack the one it is kept for leads to. */
  ghost predicate LowestReal(g: Graph, s: Search)
    requires Domains(s)
  {
    forall a {:trigger LowestLed(g, s, a)} | a in s.onStack :: LowestLed(g, s, a)
  }

  /** A function whose visit ended without closing a component leads further back. */
  ghost predicate EndedLeadBack(s: Search)
    requires Domains(s)
  {
    forall a | a in s.onStack && !Visited(s, a) :: s.lowest[a] < s.order[a]
  }

  /** The functions met during visit `k` but not during a later one. */
  ghost predicate InSegment(s: Search, k: nat, a: string)
    requires Shape(s)
  {
    && k < |s.visits| && a in s.onStack && s.order[s.visits[k].name] <= s.order[a]
    && (k + 1 < |s.visits| ==> s.order[a] < s.order[s.visits[k + 1].name])
  }

  /** The lowest order of a visit is at or below every call looked at from the functions met during it. */
  ghost predicate LowestBounds(g: Graph, s: Search)
    requires Shape(s)
  {
    forall k: nat, a, j: nat | InSegment(s, k, a) && j < |Successors(g, a)| && Done(s, a, j)
                               && Successors(g, a)[j] in s.onStack ::
      s.lowest[s.visits[k].name] <= s.order[Successors(g, a)[j]]
  }

  /** A function being visited leads to everything met since. */
  ghost predicate VisitsLead(g: Graph, s: Search)
    requires Shape(s)
  {
    forall k, a | 0 <= k < |s.visits| && a in s.onStack && s.order[s.visits[k].name] <= s.order[a] ::
      Reaches(g, s.visits[k].name, a)
  }

  ghost predicate Mutual(g: Graph, a: string, b: string) {
    Reaches(g, a, b) && Reaches(g, b, a)
  }

  ghost predicate ComponentsReal(g: Graph, componentOf: map<string, nat>) {
    forall a, b | a in componentOf && b in componentOf :: componentOf[a] == componentOf[b] <==> Mutual(g, a, b)
  }

  ghost predicate Inv(g: Graph, s: Search) {
    && Shape(s) && CalleesMet(g, s) && ClosedSet(g, s.componentOf.Keys)
    && LowestReal(g, s) && EndedLeadBack(s) && LowestBounds(g, s) && VisitsLead(g, s)
    && ComponentsReal(g, s.componentOf)
  }

  // ----- entering a function ---------------------------------------------------------------------

  lemma EnterDomains(s: Search, name: string)
    requires Domains(s) && name !in s.order
    ensures Domains(Enter(s, name))
  {
  }

  lemma EnterStackShape(s: Search, name: string)
    requires Domains(s) && StackShape(s) && name !in s.order
    ensures StackShape(Enter(s, name))
  {
    var t := Enter(s, name);
    assert forall i | 0 <= i < |s.stack| :: t.stack[i] == s.stack[i] && s.stack[i] in s.order && s.stack[i] != name;
    assert t.stack[|s.stack|] == name;
  }

  lemma EnterVisitsShape(s: Search, name: string)
    requires Domains(s) && VisitsShape(s) && name !in s.order
    ensures VisitsShape(Enter(s, name))
  {
    var t := Enter(s, name);
    assert forall k | 0 <= k < |s.visits| :: t.visits[k] == s.visits[k] && s.visits[k].name != name;
  }

  lemma EnterShape(s: Search, name: string)
    requires Shape(s) && name !in s.order
    ensures Shape(Enter(s, name))
  {
    hide Domains, StackShape, VisitsShape, Enter;
    EnterDomains(s, name);
    EnterStackShape(s, name);
    EnterVisitsShape(s, name);
  }

  lemma AdvanceShape(s: Search)
    requires Shape(s) && s.visits != []
    ensures Shape(Advance(s))
  {
  }

  lemma LowestRealKept(g: Graph, s: Search, t: Search)
    requires Domains(s) && Domains(t) && LowestReal(g, s) && s.onStack <= t.onStack
    requires forall a | a in s.onStack :: a in t.order && t.order[a] == s.order[a] && t.lowest[a] == s.lowest[a]
    ensures forall a | a in s.onStack :: LowestLed(g, t, a)
  {
    hide Domains;
    forall a | a in s.onStack
      ensures a in t.lowest && a in t.order && LowestLed(g, t, a)
    {
      OnStackKnown(s, a);
      OnStackKnown(t, a);
      assert LowestLed(g, s, a);
      var b :| LeadsTo(g, s, a, b);
      assert LeadsTo(g, t, a, b);
    }
  }

  lemma OnStackKnown(s: Search, a: string)
    requires Domains(s) && a in s.onStack
    ensures a in s.lowest && a in s.order && a !in s.componentOf
  {
  }

  /** A callee not met yet is entered in its turn. */
  lemma EnterCallee(g: Graph, s: Search, name: string)
    requires Inv(g, s) && s.visits != [] && Top(s).nextCallee < |Successors(g, Top(s).name)|
    requires name == Successors(g, Top(s).name)[Top(s).nextCallee] && name !in s.order
    ensures Inv(g, Enter(Advance(s), name))
  {
    hide Shape, LowestReal, LowestBounds, VisitsLead, EndedLeadBack, CalleesMet, ComponentsReal, ClosedSet, Enter,
         Advance;
    AdvanceShape(s);
    EnterSame(s, name);
    EnterShape(Advance(s), name);
    EnterCalleesMet(g, s, name);
    EnterLowestReal(g, s, name);
    EnterEndedLeadBack(s, name);
    EnterLowestBounds(g, s, name);
    EnterVisitsLead(g, s, name);
  }

  lemma EnterSame(s: Search, name: string)
    requires s.visits != []
    ensures Enter(Advance(s), name).componentOf == s.componentOf && Advance(s).order == s.order
  {
  }

  lemma EnterDone(g: Graph, s: Search, name: string, a: string, j: nat)
    requires s.visits != [] && a != name
    requires Done(Enter(Advance(s), name), a, j)
    ensures Done(s, a, j) || (a == Top(s).name && j == Top(s).nextCallee)
  {
    var t := Enter(Advance(s), name);
    assert forall k | 0 <= k < |s.visits| - 1 :: t.visits[k] == s.visits[k];
    assert t.visits[|s.visits| - 1] == Top(s).(nextCallee := Top(s).nextCallee + 1);
    if a == Top(s).name && j != Top(s).nextCallee {
      assert forall k | 0 <= k < |s.visits| && s.visits[k].name == a :: j < s.visits[k].nextCallee;
    }
  }

  lemma EnteredNotDone(s: Search, name: string, j: nat)
    requires s.visits != []
    ensures !Done(Enter(Advance(s), name), name, j)
  {
    var t := Enter(Advance(s), name);
    assert t.visits[|s.visits|] == Visit(name, 0);
  }

  lemma EnterCalleesMet(g: Graph, s: Search, name: string)
    requires CalleesMet(g, s) && s.visits != [] && Top(s).nextCallee < |Successors(g, Top(s).name)|
    requires name == Successors(g, Top(s).name)[Top(s).nextCallee]
    ensures CalleesMet(g, Enter(Advance(s), name))
  {
    hide Done;
    var t := Enter(Advance(s), name);
    forall a, j: nat | a in t.onStack && j < |Successors(g, a)| && Done(t, a, j)
      ensures Successors(g, a)[j] in t.order
    {
      if a == name {
        EnteredNotDone(s, name, j);
      } else {
        EnterDone(g, s, name, a, j);
      }
    }
  }

  lemma EnterLowestReal(g: Graph, s: Search, name: string)
    requires Shape(s) && LowestReal(g, s) && s.visits != [] && name !in s.order
    requires Shape(Enter(Advance(s), name))
    ensures LowestReal(g, Enter(Advance(s), name))
  {
    hide StackShape, VisitsShape, Reaches;
    var t := Enter(Advance(s), name);
    assert LowestReal(g, t) by {
      hide Domains, LowestLed;
      EnterKeepsLowest(s, name);
      LowestRealKept(g, s, t);
      EnterLeadsToItself(g, s, name);
    }
  }

  lemma EnterKeepsLowest(s: Search, name: string)
    requires Domains(s) && s.visits != [] && name !in s.order
    ensures var t := Enter(Advance(s), name);
            s.onStack <= t.onStack && (forall a | a in t.onStack :: a in s.onStack || a == name)
            && forall a | a in s.onStack :: a in t.order && t.order[a] == s.order[a] && t.lowest[a] == s.lowest[a]
  {
  }

  lemma EnterLeadsToItself(g: Graph, s: Search, name: string)
    requires s.visits != []
    ensures var t := Enter(Advance(s), name);
            name in t.lowest && name in t.order && LowestLed(g, t, name)
  {
    ReachesItself(g, name);
    assert LeadsTo(g, Enter(Advance(s), name), name, name);
  }

  lemma EnterEndedLeadBack(s: Search, name: string)
    requires Shape(s) && EndedLeadBack(s) && s.visits != [] && name !in s.order
    requires Shape(Enter(Advance(s), name))
    ensures EndedLeadBack(Enter(Advance(s), name))
  {
    hide StackShape;
    var t := Enter(Advance(s), name);
    forall a | a in t.onStack && !Visited(t, a)
      ensures t.lowest[a] < t.order[a]
    {
      assert t.visits[|s.visits|].name == name;
      assert forall k | 0 <= k < |s.visits| :: t.visits[k].name == s.visits[k].name;
    }
  }

  lemma EnterSegment(s: Search, name: string, k: nat, a: string)
    requires Shape(s) && s.visits != [] && name !in s.order && Shape(Enter(Advance(s), name))
    requires InSegment(Enter(Advance(s), name), k, a)
    ensures if a == name then k == |s.visits| else k < |s.visits| && InSegment(s, k, a)
  {
    hide StackShape;
    var t := Enter(Advance(s), name);
    assert t.visits[|s.visits|].name == name;
    assert forall l | 0 <= l < |s.visits| :: t.visits[l].name == s.visits[l].name;
  }

  lemma EnterLowestBounds(g: Graph, s: Search, name: string)
    requires Shape(s) && LowestBounds(g, s) && CalleesMet(g, s) && LowestReal(g, s) && s.visits != []
    requires name !in s.order && Shape(Enter(Advance(s), name))
    requires Top(s).nextCallee < |Successors(g, Top(s).name)|
    requires name == Successors(g, Top(s).name)[Top(s).nextCallee]
    ensures LowestBounds(g, Enter(Advance(s), name))
  {
    hide Done, InSegment, StackShape, Domains, VisitsShape, CalleesMet, LowestReal, Enter, Advance;
    var t := Enter(Advance(s), name);
    forall k: nat, a, j: nat | InSegment(t, k, a) && j < |Successors(g, a)| && Done(t, a, j)
                               && Successors(g, a)[j] in t.onStack
      ensures k < |t.visits| && t.visits[k].name in t.lowest && Successors(g, a)[j] in t.order
              && t.lowest[t.visits[k].name] <= t.order[Successors(g, a)[j]]
    {
      EnterBound(g, s, name, k, a, j);
    }
  }

  lemma EnterBound(g: Graph, s: Search, name: string, k: nat, a: string, j: nat)
    requires Shape(s) && LowestBounds(g, s) && CalleesMet(g, s) && LowestReal(g, s) && s.visits != []
    requires name !in s.order && Shape(Enter(Advance(s), name))
    requires Top(s).nextCallee < |Successors(g, Top(s).name)|
    requires name == Successors(g, Top(s).name)[Top(s).nextCallee]
    requires InSegment(Enter(Advance(s), name), k, a) && j < |Successors(g, a)|
    requires Done(Enter(Advance(s), name), a, j) && Successors(g, a)[j] in Enter(Advance(s), name).onStack
    ensures var t := Enter(Advance(s), name);
            k < |t.visits| && t.visits[k].name in t.lowest && Successors(g, a)[j] in t.order
            && t.lowest[t.visits[k].name] <= t.order[Successors(g, a)[j]]
  {
    hide Done, InSegment, StackShape, VisitsShape, CalleesMet, LowestReal, LowestBounds;
    var t := Enter(Advance(s), name);
    EnterSegment(s, name, k, a);
    if a == name {
      EnteredNotDone(s, name, j);
    } else {
      EnterDone(g, s, name, a, j);
      assert t.visits[k].name == s.visits[k].name;
      OldBound(g, s, name, k, a, j);
    }
  }

  lemma OldBound(g: Graph, s: Search, name: string, k: nat, a: string, j: nat)
    requires Shape(s) && LowestBounds(g, s) && CalleesMet(g, s) && LowestReal(g, s) && s.visits != []
    requires name !in s.order && InSegment(s, k, a) && j < |Successors(g, a)|
    requires Done(s, a, j) || (a == Top(s).name && j == Top(s).nextCallee && name == Successors(g, a)[j])
    requires Successors(g, a)[j] in s.onStack + {name}
    ensures s.visits[k].name in s.onStack
    ensures if Done(s, a, j) then Successors(g, a)[j] in s.onStack && s.lowest[s.visits[k].name] <= s.order[Successors(g, a)[j]]
            else s.lowest[s.visits[k].name] < s.nextOrder && Successors(g, a)[j] == name
  {
    hide Done, StackShape, LeadsTo;
    assert s.visits[k].name in s.onStack && LowestLed(g, s, s.visits[k].name);
    if Done(s, a, j) {
      assert Successors(g, a)[j] in s.order;
    }
  }

  lemma EnterVisitsLead(g: Graph, s: Search, name: string)
    requires Shape(s) && VisitsLead(g, s) && s.visits != [] && name !in s.order && Shape(Enter(Advance(s), name))
    requires Top(s).nextCallee < |Successors(g, Top(s).name)|
    requires name == Successors(g, Top(s).name)[Top(s).nextCallee]
    ensures VisitsLead(g, Enter(Advance(s), name))
  {
    hide Reaches, StackShape;
    var t := Enter(Advance(s), name);
    var last := |s.visits| - 1;
    forall k, a | 0 <= k < |t.visits| && a in t.onStack && t.order[t.visits[k].name] <= t.order[a]
      ensures Reaches(g, t.visits[k].name, a)
    {
      if k == |s.visits| {
        ReachesItself(g, name);
      } else {
        assert t.visits[k].name == s.visits[k].name;
        if a == name {
          assert k < last ==> s.order[s.visits[k].name] < s.order[s.visits[last].name];
          ReachesSuccessor(g, Top(s).name, name);
          ReachesOnward(g, s.visits[k].name, Top(s).name, name);
        }
      }
    }
  }

  // ----- a root, when nothing is being visited -----------------------------------------------------

  /** With no visit under way, every function met is in a component. */
  lemma IdleStackEmpty(g: Graph, s: Search)
    requires Inv(g, s) && s.visits == []
    ensures s.stack == [] && s.onStack == {}
  {
    hide LowestBounds, VisitsLead, CalleesMet, ComponentsReal, ClosedSet;
    if s.stack != [] {
      assert s.stack[0] in s.onStack && !Visited(s, s.stack[0]);
      BottomStays(g, s);
      assert false;
    }
    assert forall a :: a !in s.onStack;
  }

  /** The first function on the stack leads to none before it. */
  lemma BottomStays(g: Graph, s: Search)
    requires Shape(s) && LowestReal(g, s) && s.stack != []
    ensures s.stack[0] in s.onStack && s.lowest[s.stack[0]] >= s.order[s.stack[0]]
  {
    hide VisitsShape, Reaches;
    var a := s.stack[0];
    assert a in s.onStack && LowestLed(g, s, a);
    var b :| LeadsTo(g, s, a, b);
    var i :| 0 <= i < |s.stack| && s.stack[i] == b;
  }

  lemma EnterRoot(g: Graph, s: Search, name: string)
    requires Inv(g, s) && s.visits == [] && name !in s.order
    ensures Inv(g, Enter(s, name))
  {
    IdleStackEmpty(g, s);
    var t := Enter(s, name);
    EnterShape(s, name);
    assert t.onStack == {name} && t.visits == [Visit(name, 0)];
    ReachesItself(g, name);
    assert LeadsTo(g, t, name, name) && LowestLed(g, t, name);
    assert t.visits[0].name == name;
  }

  // ----- a call to a function already met ----------------------------------------------------------

  function MeetAgain(s: Search, callee: string): Search
    requires s.visits != [] && callee in s.order && Top(s).name in s.lowest
  {
    if callee in s.onStack then Lower(Advance(s), Top(s).name, s.order[callee]) else Advance(s)
  }

  lemma MeetAgainShape(s: Search, callee: string)
    requires Shape(s) && s.visits != [] && callee in s.order && Top(s).name in s.lowest
    ensures Shape(MeetAgain(s, callee))
  {
    hide VisitsShape, StackShape;
    var t := MeetAgain(s, callee);
    assert t.lowest.Keys == s.lowest.Keys;
    assert forall k | 0 <= k < |s.visits| :: t.visits[k].name == s.visits[k].name;
    VisitsShapeKept(s, t);
    StackShapeKept(s, t);
  }

  lemma VisitsShapeKept(s: Search, t: Search)
    requires VisitsShape(s) && t.onStack == s.onStack && t.order == s.order && |t.visits| == |s.visits|
    requires forall k | 0 <= k < |s.visits| :: t.visits[k].name == s.visits[k].name
    ensures VisitsShape(t)
  {
  }

  lemma StackShapeKept(s: Search, t: Search)
    requires StackShape(s) && t.stack == s.stack && t.onStack == s.onStack && t.order == s.order
    ensures StackShape(t)
  {
  }

  lemma MeetAgainDone(s: Search, callee: string, a: string, j: nat)
    requires s.visits != [] && callee in s.order && Top(s).name in s.lowest && Done(MeetAgain(s, callee), a, j)
    ensures Done(s, a, j) || (a == Top(s).name && j == Top(s).nextCallee)
  {
    var t := MeetAgain(s, callee);
    assert forall k | 0 <= k < |s.visits| - 1 :: t.visits[k] == s.visits[k];
    assert t.visits[|s.visits| - 1] == Top(s).(nextCallee := Top(s).nextCallee + 1);
    if a == Top(s).name && j != Top(s).nextCallee {
      assert forall k | 0 <= k < |s.visits| && s.visits[k].name == a :: j < s.visits[k].nextCallee;
    }
  }

  lemma MeetAgainVisited(s: Search, callee: string, a: string)
    requires s.visits != [] && callee in s.order && Top(s).name in s.lowest
    ensures Visited(MeetAgain(s, callee), a) <==> Visited(s, a)
  {
    var t := MeetAgain(s, callee);
    assert forall k | 0 <= k < |s.visits| :: t.visits[k].name == s.visits[k].name;
  }

  /** A call to a function met before is looked at: its order bounds the caller's lowest while it is on the stack. */
  lemma MeetCallee(g: Graph, s: Search, callee: string)
    requires Inv(g, s) && s.visits != [] && Top(s).name in s.lowest
    requires Top(s).nextCallee < |Successors(g, Top(s).name)|
    requires callee == Successors(g, Top(s).name)[Top(s).nextCallee] && callee in s.order
    ensures Inv(g, MeetAgain(s, callee))
  {
    hide Shape, LowestReal, LowestBounds, VisitsLead, EndedLeadBack, CalleesMet, ComponentsReal, ClosedSet;
    MeetAgainShape(s, callee);
    MeetCalleesMet(g, s, callee);
    MeetLowestReal(g, s, callee);
    MeetEndedLeadBack(s, callee);
    MeetLowestBounds(g, s, callee);
    MeetVisitsLead(g, s, callee);
  }

  lemma MeetCalleesMet(g: Graph, s: Search, callee: string)
    requires CalleesMet(g, s) && s.visits != [] && Top(s).name in s.lowest
    requires Top(s).nextCallee < |Successors(g, Top(s).name)|
    requires callee == Successors(g, Top(s).name)[Top(s).nextCallee] && callee in s.order
    ensures CalleesMet(g, MeetAgain(s, callee))
  {
    hide Done;
    var t := MeetAgain(s, callee);
    forall a, j: nat | a in t.onStack && j < |Successors(g, a)| && Done(t, a, j)
      ensures Successors(g, a)[j] in t.order
    {
      MeetAgainDone(s, callee, a, j);
    }
  }

  lemma MeetLowestReal(g: Graph, s: Search, callee: string)
    requires Shape(s) && LowestReal(g, s) && s.visits != [] && Top(s).name in s.lowest
    requires Top(s).nextCallee < |Successors(g, Top(s).name)|
    requires callee == Successors(g, Top(s).name)[Top(s).nextCallee] && callee in s.order
    requires Shape(MeetAgain(s, callee))
    ensures LowestReal(g, MeetAgain(s, callee))
  {
    hide StackShape, VisitsShape, Reaches;
    var t := MeetAgain(s, callee);
    ReachesSuccessor(g, Top(s).name, callee);
    forall a | a in t.onStack
      ensures LowestLed(g, t, a)
    {
      assert LowestLed(g, s, a);
      var b :| LeadsTo(g, s, a, b);
      if t.lowest[a] == s.lowest[a] {
        assert LeadsTo(g, t, a, b);
      } else {
        assert LeadsTo(g, t, a, callee);
      }
    }
  }

  lemma MeetEndedLeadBack(s: Search, callee: string)
    requires Shape(s) && EndedLeadBack(s) && s.visits != [] && callee in s.order && Top(s).name in s.lowest
    requires Shape(MeetAgain(s, callee))
    ensures EndedLeadBack(MeetAgain(s, callee))
  {
    hide StackShape, VisitsShape, Visited;
    var t := MeetAgain(s, callee);
    forall a | a in t.onStack && !Visited(t, a)
      ensures t.lowest[a] < t.order[a]
    {
      MeetAgainVisited(s, callee, a);
    }
  }

  lemma TopSegment(s: Search, k: nat)
    requires Shape(s) && s.visits != [] && InSegment(s, k, Top(s).name)
    ensures k == |s.visits| - 1
  {
    assert forall l | 0 <= l < |s.visits| - 1 :: s.order[s.visits[l].name] < s.order[Top(s).name];
  }

  lemma MeetLowestBounds(g: Graph, s: Search, callee: string)
    requires Shape(s) && LowestBounds(g, s) && s.visits != [] && Top(s).name in s.lowest
    requires Top(s).nextCallee < |Successors(g, Top(s).name)|
    requires callee == Successors(g, Top(s).name)[Top(s).nextCallee] && callee in s.order
    requires Shape(MeetAgain(s, callee))
    ensures LowestBounds(g, MeetAgain(s, callee))
  {
    hide Done, StackShape;
    var t := MeetAgain(s, callee);
    assert forall k | 0 <= k < |s.visits| :: t.visits[k].name == s.visits[k].name;
    forall k: nat, a, j: nat | InSegment(t, k, a) && j < |Successors(g, a)| && Done(t, a, j)
                               && Successors(g, a)[j] in t.onStack
      ensures t.lowest[t.visits[k].name] <= t.order[Successors(g, a)[j]]
    {
      assert InSegment(s, k, a);
      MeetAgainDone(s, callee, a, j);
      if !Done(s, a, j) {
        TopSegment(s, k);
      }
    }
  }

  lemma MeetVisitsLead(g: Graph, s: Search, callee: string)
    requires Shape(s) && VisitsLead(g, s) && s.visits != [] && callee in s.order && Top(s).name in s.lowest
    requires Shape(MeetAgain(s, callee))
    ensures VisitsLead(g, MeetAgain(s, callee))
  {
    hide Reaches, StackShape;
    var t := MeetAgain(s, callee);
    assert forall k | 0 <= k < |s.visits| :: t.visits[k].name == s.visits[k].name;
  }

  // ----- the end of a visit --------------------------------------------------------------------------

  /** The visit on top is over; its lowest order passes to the visit below it. */
  function Return(s: Search): Search
    requires s.visits != [] && Top(s).name in s.lowest
    requires |s.visits| > 1 ==> s.visits[|s.visits| - 2].name in s.lowest
  {
    var t := s.(visits := s.visits[..|s.visits| - 1]);
    if |s.visits| > 1 then Lower(t, s.visits[|s.visits| - 2].name, s.lowest[Top(s).name]) else t
  }

  ghost predicate CanReturn(g: Graph, s: Search) {
    && s.visits != [] && Top(s).name in s.lowest && Top(s).nextCallee >= |Successors(g, Top(s).name)|
    && (|s.visits| > 1 ==> s.visits[|s.visits| - 2].name in s.lowest)
  }

  lemma ReturnShape(s: Search)
    requires Shape(s) && s.visits != [] && Top(s).name in s.lowest
    requires |s.visits| > 1 ==> s.visits[|s.visits| - 2].name in s.lowest
    ensures Shape(Return(s))
  {
    var t := Return(s);
    assert t.lowest.Keys == s.lowest.Keys;
  }

  lemma ReturnDone(g: Graph, s: Search, a: string, j: nat)
    requires CanReturn(g, s) && j < |Successors(g, a)| && Done(Return(s), a, j)
    ensures Done(s, a, j)
  {
    var t := Return(s);
    assert forall k | 0 <= k < |s.visits| - 1 :: t.visits[k] == s.visits[k];
  }

  lemma ReturnVisited(s: Search, a: string)
    requires s.visits != [] && Top(s).name in s.lowest
    requires |s.visits| > 1 ==> s.visits[|s.visits| - 2].name in s.lowest
    requires Visited(s, a) && a != Top(s).name
    ensures Visited(Return(s), a)
  {
    var k :| 0 <= k < |s.visits| && s.visits[k].name == a;
    assert Return(s).visits[k].name == a;
  }

  /** A function that leads back below itself stays on the stack, in the visit that called it. */
  lemma ReturnInside(g: Graph, s: Search)
    requires Inv(g, s) && CanReturn(g, s) && Top(s).name in s.order && s.lowest[Top(s).name] != s.order[Top(s).name]
    ensures Inv(g, Return(s))
  {
    hide Shape, LowestReal, LowestBounds, VisitsLead, EndedLeadBack, CalleesMet, ComponentsReal, ClosedSet;
    ReturnShape(s);
    ReturnCalleesMet(g, s);
    ReturnLowestReal(g, s);
    ReturnEndedLeadBack(g, s);
    ReturnLowestBounds(g, s);
    ReturnVisitsLead(g, s);
  }

  lemma ReturnCalleesMet(g: Graph, s: Search)
    requires CalleesMet(g, s) && CanReturn(g, s)
    ensures CalleesMet(g, Return(s))
  {
    hide Done;
    var t := Return(s);
    forall a, j: nat | a in t.onStack && j < |Successors(g, a)| && Done(t, a, j)
      ensures Successors(g, a)[j] in t.order
    {
      ReturnDone(g, s, a, j);
    }
  }

  lemma ReturnLowestReal(g: Graph, s: Search)
    requires Shape(s) && LowestReal(g, s) && VisitsLead(g, s) && CanReturn(g, s) && Shape(Return(s))
    ensures LowestReal(g, Return(s))
  {
    hide StackShape, Reaches;
    var t := Return(s);
    forall a | a in t.onStack
      ensures LowestLed(g, t, a)
    {
      assert LowestLed(g, s, a) && LowestLed(g, s, Top(s).name);
      if t.lowest[a] == s.lowest[a] {
        var b :| LeadsTo(g, s, a, b);
        assert LeadsTo(g, t, a, b);
      } else {
        var b :| LeadsTo(g, s, Top(s).name, b);
        assert s.order[s.visits[|s.visits| - 2].name] < s.order[Top(s).name];
        ReachesOnward(g, a, Top(s).name, b);
        assert LeadsTo(g, t, a, b);
      }
    }
  }

  lemma ReturnEndedLeadBack(g: Graph, s: Search)
    requires Shape(s) && EndedLeadBack(s) && LowestReal(g, s) && CanReturn(g, s) && Shape(Return(s))
    requires Top(s).name in s.order && s.lowest[Top(s).name] != s.order[Top(s).name]
    ensures EndedLeadBack(Return(s))
  {
    hide StackShape, Visited, LeadsTo;
    var t := Return(s);
    assert Top(s).name in s.onStack && LowestLed(g, s, Top(s).name);
    forall a | a in t.onStack && !Visited(t, a)
      ensures t.lowest[a] < t.order[a]
    {
      if a != Top(s).name && Visited(s, a) {
        ReturnVisited(s, a);
      }
    }
  }

  lemma ReturnSegment(s: Search, k: nat, a: string)
    requires Shape(s) && s.visits != [] && Top(s).name in s.lowest
    requires |s.visits| > 1 ==> s.visits[|s.visits| - 2].name in s.lowest
    requires Shape(Return(s)) && InSegment(Return(s), k, a)
    ensures k < |s.visits| - 1
    ensures InSegment(s, k, a) || (k == |s.visits| - 2 && InSegment(s, |s.visits| - 1, a))
  {
    hide StackShape;
    var t := Return(s);
    assert forall l | 0 <= l < |s.visits| - 1 :: t.visits[l] == s.visits[l];
  }

  lemma ReturnLowestBounds(g: Graph, s: Search)
    requires Shape(s) && LowestBounds(g, s) && CanReturn(g, s) && Shape(Return(s))
    ensures LowestBounds(g, Return(s))
  {
    hide Done, InSegment, StackShape;
    var t := Return(s);
    forall k: nat, a, j: nat | InSegment(t, k, a) && j < |Successors(g, a)| && Done(t, a, j)
                               && Successors(g, a)[j] in t.onStack
      ensures k < |t.visits| && t.lowest[t.visits[k].name] <= t.order[Successors(g, a)[j]]
    {
      ReturnSegment(s, k, a);
      ReturnDone(g, s, a, j);
      assert t.visits[k] == s.visits[k];
    }
  }

  lemma ReturnVisitsLead(g: Graph, s: Search)
    requires Shape(s) && VisitsLead(g, s) && CanReturn(g, s) && Shape(Return(s))
    ensures VisitsLead(g, Return(s))
  {
    hide Reaches, StackShape;
    var t := Return(s);
    assert forall k | 0 <= k < |t.visits| :: t.visits[k] == s.visits[k];
  }

  // ----- a component closes ----------------------------------------------------------------------------

  /** The functions met since `name`, itself included: what its component takes off the stack. */
  ghost function Members(s: Search, name: string): set<string>
    requires Shape(s) && name in s.onStack
  {
    set a | a in s.onStack && s.order[a] >= s.order[name]
  }

  ghost predicate IsRoot(g: Graph, s: Search) {
    CanReturn(g, s) && Top(s).name in s.order && s.lowest[Top(s).name] == s.order[Top(s).name]
  }

  lemma TopOnStack(s: Search)
    requires Shape(s) && s.visits != []
    ensures Top(s).name in s.onStack && Top(s).name in s.order && Top(s).name in s.lowest
  {
  }

  lemma MemberDone(g: Graph, s: Search, a: string, j: nat)
    requires Shape(s) && CanReturn(g, s) && a in s.onStack && s.order[a] >= s.order[Top(s).name]
    requires j < |Successors(g, a)|
    ensures Done(s, a, j) && InSegment(s, |s.visits| - 1, a)
  {
    hide StackShape;
    assert forall k | 0 <= k < |s.visits| - 1 :: s.order[s.visits[k].name] < s.order[Top(s).name];
  }

  /** Every call from a member stays in the component or goes to one closed before. */
  lemma MembersClosed(g: Graph, s: Search)
    requires Inv(g, s) && IsRoot(g, s) && Top(s).name in s.onStack
    ensures ClosedSet(g, s.componentOf.Keys + Members(s, Top(s).name))
  {
    hide LowestReal, EndedLeadBack, VisitsLead, ComponentsReal, Done, InSegment, StackShape, VisitsShape;
    var members := Members(s, Top(s).name);
    forall a, b | a in s.componentOf.Keys + members && b in Successors(g, a)
      ensures b in s.componentOf.Keys + members
    {
      if a in members {
        var j :| 0 <= j < |Successors(g, a)| && Successors(g, a)[j] == b;
        MemberDone(g, s, a, j);
        assert b in s.order;
        if b in s.onStack {
          assert s.lowest[s.visits[|s.visits| - 1].name] <= s.order[Successors(g, a)[j]];
        }
      }
    }
  }

  lemma {:induction false} MemberLeadsBack(g: Graph, s: Search, a: string)
    requires Inv(g, s) && IsRoot(g, s) && Top(s).name in s.onStack && a in Members(s, Top(s).name)
    requires ClosedSet(g, s.componentOf.Keys + Members(s, Top(s).name))
    ensures Reaches(g, a, Top(s).name)
    decreases s.order[a]
  {
    hide CalleesMet, LowestBounds, VisitsLead, ComponentsReal, Reaches, ClosedSet;
    if a == Top(s).name {
      ReachesItself(g, a);
    } else {
      MemberNotVisited(s, a);
      assert LowestLed(g, s, a);
      var b :| LeadsTo(g, s, a, b);
      ReachesWithin(g, s.componentOf.Keys + Members(s, Top(s).name), a, b);
      MemberLeadsBack(g, s, b);
      ReachesOnward(g, a, b, Top(s).name);
    }
  }

  lemma MemberNotVisited(s: Search, a: string)
    requires Shape(s) && s.visits != [] && Top(s).name in s.onStack
    requires a in Members(s, Top(s).name) && a != Top(s).name
    ensures !Visited(s, a)
  {
    hide StackShape;
    assert forall k | 0 <= k < |s.visits| - 1 :: s.order[s.visits[k].name] < s.order[Top(s).name];
  }

  lemma MembersMutual(g: Graph, s: Search, a: string, b: string)
    requires Inv(g, s) && IsRoot(g, s) && Top(s).name in s.onStack
    requires ClosedSet(g, s.componentOf.Keys + Members(s, Top(s).name))
    requires a in Members(s, Top(s).name) && b in Members(s, Top(s).name)
    ensures Reaches(g, a, b)
  {
    hide CalleesMet, LowestBounds, LowestReal, EndedLeadBack, ComponentsReal, Reaches, ClosedSet, StackShape,
         VisitsShape;
    MemberLeadsBack(g, s, a);
    assert Reaches(g, s.visits[|s.visits| - 1].name, b);
    ReachesOnward(g, a, Top(s).name, b);
  }

  function WithComponent(componentOf: map<string, nat>, members: set<string>, component: nat): map<string, nat> {
    componentOf + map a | a in members :: component
  }

  ghost function SetOf(names: seq<string>): set<string> {
    set a | a in names
  }

  /** The functions from stack position `from` on become a component. */
  ghost function Popped(s: Search, from: nat): Search
    requires from <= |s.stack|
  {
    s.(stack := s.stack[..from], onStack := s.onStack - SetOf(s.stack[from..]),
       componentOf := WithComponent(s.componentOf, SetOf(s.stack[from..]), s.nextComponent))
  }

  /** The visit on top is over as well. */
  ghost function Closing(s: Search, from: nat): Search
    requires s.visits != [] && from <= |s.stack|
  {
    Popped(s, from).(visits := s.visits[..|s.visits| - 1], nextComponent := s.nextComponent + 1)
  }

  lemma SuffixIsMembers(s: Search, from: nat)
    requires Shape(s) && from < |s.stack| && s.stack[from] in s.onStack
    ensures SetOf(s.stack[from..]) == Members(s, s.stack[from])
  {
    hide VisitsShape;
    forall a
      ensures a in s.stack[from..] <==> a in Members(s, s.stack[from])
    {
      if a in s.stack[from..] {
        var i :| from <= i < |s.stack| && s.stack[i] == a;
      }
      if a in Members(s, s.stack[from]) {
        var i :| 0 <= i < |s.stack| && s.stack[i] == a;
        assert from <= i;
        assert s.stack[from..][i - from] == a;
      }
    }
  }

  ghost predicate CanClose(g: Graph, s: Search, from: nat) {
    IsRoot(g, s) && Shape(s) && from < |s.stack| && s.stack[from] == Top(s).name && Top(s).name in s.onStack
  }

  lemma ClosingDomains(g: Graph, s: Search, from: nat)
    requires CanClose(g, s, from)
    ensures Domains(Closing(s, from))
  {
    hide VisitsShape, StackShape;
    SuffixIsMembers(s, from);
  }

  lemma ClosingStack(g: Graph, s: Search, from: nat)
    requires CanClose(g, s, from)
    ensures StackShape(Closing(s, from))
  {
    hide VisitsShape, Members, SetOf, Domains;
    SuffixIsMembers(s, from);
    var t := Closing(s, from);
    forall i | 0 <= i < from
      ensures t.stack[i] in t.onStack && t.stack[i] == s.stack[i]
    {
      BelowNotMember(s, from, i);
    }
    forall a | a in t.onStack
      ensures a in t.stack && a in t.order
    {
      StillOnStack(s, from, a);
    }
  }

  lemma StillOnStack(s: Search, from: nat, a: string)
    requires StackShape(s) && from < |s.stack| && a in s.onStack && a !in SetOf(s.stack[from..])
    ensures a in s.stack[..from]
  {
    assert s.stack == s.stack[..from] + s.stack[from..];
  }

  lemma BelowNotMember(s: Search, from: nat, i: nat)
    requires Shape(s) && i < from < |s.stack| && s.stack[from] in s.onStack
    ensures s.stack[i] !in Members(s, s.stack[from])
  {
  }

  lemma ClosingVisits(g: Graph, s: Search, from: nat)
    requires CanClose(g, s, from)
    ensures VisitsShape(Closing(s, from))
  {
    hide StackShape;
    SuffixIsMembers(s, from);
    assert forall k | 0 <= k < |s.visits| - 1 :: s.order[s.visits[k].name] < s.order[Top(s).name];
  }

  lemma ClosingShape(g: Graph, s: Search, from: nat)
    requires CanClose(g, s, from)
    ensures Shape(Closing(s, from))
    ensures Closing(s, from).onStack == s.onStack - Members(s, Top(s).name)
    ensures Closing(s, from).componentOf.Keys == s.componentOf.Keys + Members(s, Top(s).name)
  {
    hide VisitsShape, StackShape;
    ClosingDomains(g, s, from);
    ClosingStack(g, s, from);
    ClosingVisits(g, s, from);
    SuffixIsMembers(s, from);
  }

  lemma ClosingDone(g: Graph, s: Search, from: nat, a: string, j: nat)
    requires CanReturn(g, s) && from <= |s.stack| && j < |Successors(g, a)| && Done(Closing(s, from), a, j)
    ensures Done(s, a, j)
  {
    var t := Closing(s, from);
    assert forall k | 0 <= k < |s.visits| - 1 :: t.visits[k] == s.visits[k];
  }

  lemma ClosingCalleesMet(g: Graph, s: Search, from: nat)
    requires CanClose(g, s, from) && CalleesMet(g, s)
    ensures CalleesMet(g, Closing(s, from))
  {
    hide Done, Shape;
    var t := Closing(s, from);
    forall a, j: nat | a in t.onStack && j < |Successors(g, a)| && Done(t, a, j)
      ensures Successors(g, a)[j] in t.order
    {
      ClosingDone(g, s, from, a, j);
    }
  }

  lemma ClosingLowestReal(g: Graph, s: Search, from: nat)
    requires CanClose(g, s, from) && LowestReal(g, s) && Shape(Closing(s, from))
    ensures LowestReal(g, Closing(s, from))
  {
    hide Reaches, StackShape, VisitsShape;
    SuffixIsMembers(s, from);
    var t := Closing(s, from);
    forall a | a in t.onStack
      ensures LowestLed(g, t, a)
    {
      assert LowestLed(g, s, a);
      var b :| LeadsTo(g, s, a, b);
      assert LeadsTo(g, t, a, b);
    }
  }

  lemma ClosingEndedLeadBack(g: Graph, s: Search, from: nat)
    requires CanClose(g, s, from) && EndedLeadBack(s) && Shape(Closing(s, from))
    ensures EndedLeadBack(Closing(s, from))
  {
    hide StackShape, VisitsShape, Visited;
    SuffixIsMembers(s, from);
    var t := Closing(s, from);
    forall a | a in t.onStack && !Visited(t, a)
      ensures t.lowest[a] < t.order[a]
    {
      if Visited(s, a) {
        ClosingVisited(s, from, a);
      }
    }
  }

  lemma ClosingVisited(s: Search, from: nat, a: string)
    requires s.visits != [] && from <= |s.stack| && Visited(s, a) && a != Top(s).name
    ensures Visited(Closing(s, from), a)
  {
    var k :| 0 <= k < |s.visits| && s.visits[k].name == a;
    assert Closing(s, from).visits[k].name == a;
  }

  lemma ClosingSegment(g: Graph, s: Search, from: nat, k: nat, a: string)
    requires CanClose(g, s, from) && Shape(Closing(s, from)) && InSegment(Closing(s, from), k, a)
    ensures k < |s.visits| - 1 && InSegment(s, k, a)
  {
    hide StackShape;
    SuffixIsMembers(s, from);
    var t := Closing(s, from);
    assert forall l | 0 <= l < |s.visits| - 1 :: t.visits[l] == s.visits[l];
  }

  lemma ClosingLowestBounds(g: Graph, s: Search, from: nat)
    requires CanClose(g, s, from) && LowestBounds(g, s) && Shape(Closing(s, from))
    ensures LowestBounds(g, Closing(s, from))
  {
    hide Done, InSegment, StackShape;
    var t := Closing(s, from);
    forall k: nat, a, j: nat | InSegment(t, k, a) && j < |Successors(g, a)| && Done(t, a, j)
                               && Successors(g, a)[j] in t.onStack
      ensures k < |t.visits| && t.lowest[t.visits[k].name] <= t.order[Successors(g, a)[j]]
    {
      ClosingSegment(g, s, from, k, a);
      ClosingDone(g, s, from, a, j);
      assert t.visits[k] == s.visits[k];
    }
  }

  lemma ClosingVisitsLead(g: Graph, s: Search, from: nat)
    requires CanClose(g, s, from) && VisitsLead(g, s) && Shape(Closing(s, from))
    ensures VisitsLead(g, Closing(s, from))
  {
    hide Reaches, StackShape;
    var t := Closing(s, from);
    assert forall k | 0 <= k < |t.visits| :: t.visits[k] == s.visits[k];
  }

  /** The new component is one: its members lead to each other, and to nothing that leads back from outside. */
  lemma ClosingComponents(g: Graph, componentOf: map<string, nat>, members: set<string>, component: nat)
    requires ComponentsReal(g, componentOf) && ClosedSet(g, componentOf.Keys) && members !! componentOf.Keys
    requires forall a, b | a in members && b in members :: Reaches(g, a, b)
    requires forall a | a in componentOf :: componentOf[a] < component
    ensures ComponentsReal(g, WithComponent(componentOf, members, component))
  {
    hide Reaches, ClosedSet;
    var after := WithComponent(componentOf, members, component);
    forall a, b | a in after && b in after
      ensures after[a] == after[b] <==> Mutual(g, a, b)
    {
      if a in members && b in componentOf && Mutual(g, a, b) {
        ReachesWithin(g, componentOf.Keys, b, a);
      }
      if b in members && a in componentOf && Mutual(g, a, b) {
        ReachesWithin(g, componentOf.Keys, a, b);
      }
    }
  }

  lemma CloseComponent(g: Graph, s: Search, from: nat)
    requires Inv(g, s) && CanClose(g, s, from)
    ensures Inv(g, Closing(s, from))
  {
    MembersClosed(g, s);
    SuffixIsMembers(s, from);
    var members := Members(s, Top(s).name);
    forall a, b | a in members && b in members
      ensures Reaches(g, a, b)
    {
      MembersMutual(g, s, a, b);
    }
    MembersApart(s);
    ClosingComponents(g, s.componentOf, members, s.nextComponent);
    ClosingShape(g, s, from);
    ClosingRest(g, s, from);
  }

  lemma MembersApart(s: Search)
    requires Shape(s) && s.visits != [] && Top(s).name in s.onStack
    ensures Members(s, Top(s).name) !! s.componentOf.Keys
  {
  }

  lemma ClosingRest(g: Graph, s: Search, from: nat)
    requires Inv(g, s) && CanClose(g, s, from) && Shape(Closing(s, from))
    ensures CalleesMet(g, Closing(s, from)) && LowestReal(g, Closing(s, from)) && EndedLeadBack(Closing(s, from))
    ensures LowestBounds(g, Closing(s, from)) && VisitsLead(g, Closing(s, from))
  {
    hide Shape, LowestReal, LowestBounds, VisitsLead, EndedLeadBack, CalleesMet, ComponentsReal, ClosedSet, Closing;
    ClosingCalleesMet(g, s, from);
    ClosingLowestReal(g, s, from);
    ClosingEndedLeadBack(g, s, from);
    ClosingLowestBounds(g, s, from);
    ClosingVisitsLead(g, s, from);
  }

  // ----- the search ------------------------------------------------------------------------------------

  /** What is left of the visits under way. */
  function Work(g: Graph, visits: seq<Visit>): nat {
    if visits == [] then 0
    else
      var last := visits[|visits| - 1];
      var calls := |Successors(g, last.name)|;
      Work(g, visits[..|visits| - 1]) + 1 + (if last.nextCallee < calls then calls - last.nextCallee else 0)
  }

  ghost function Functions(g: Graph): set<string> {
    g.Keys + set a, b | a in g && b in g[a] :: b
  }

  lemma PopOne(s: Search, from: nat)
    requires 0 < from <= |s.stack|
    ensures var t := Popped(s, from);
            Popped(s, from - 1) == t.(stack := t.stack[..from - 1], onStack := t.onStack - {s.stack[from - 1]},
                                      componentOf := t.componentOf[s.stack[from - 1] := t.nextComponent])
  {
    hide SetOf, WithComponent;
    var member, popped := s.stack[from - 1], SetOf(s.stack[from..]);
    assert s.stack[from - 1..] == [member] + s.stack[from..];
    SetOfOneMore(member, s.stack[from..]);
    ComponentGrows(s.componentOf, popped, member, s.nextComponent);
    assert s.onStack - (popped + {member}) == s.onStack - popped - {member};
    assert s.stack[..from][..from - 1] == s.stack[..from - 1];
  }

  lemma SetOfOneMore(name: string, names: seq<string>)
    ensures SetOf([name] + names) == SetOf(names) + {name}
  {
  }

  lemma ComponentGrows(componentOf: map<string, nat>, members: set<string>, member: string, component: nat)
    ensures WithComponent(componentOf, members + {member}, component)
         == WithComponent(componentOf, members, component)[member := component]
  {
  }

  /** Takes the component of `name` off the stack. */
  method PopComponent(s: Search, name: string) returns (t: Search, ghost from: nat)
    requires name in s.stack
    ensures from < |s.stack| && s.stack[from] == name && t == Popped(s, from)
  {
    hide SetOf, WithComponent;
    t := s;
    from := |s.stack|;
    var member := "";
    var popping := true;
    PopNone(s);
    while popping
      invariant from <= |s.stack| && t == Popped(s, from)
      invariant popping ==> name in s.stack[..from]
      invariant !popping ==> from < |s.stack| && s.stack[from] == name
      decreases from, popping
    {
      PopOne(s, from);
      member := t.stack[|t.stack| - 1];
      t := t.(stack := t.stack[..|t.stack| - 1], onStack := t.onStack - {member},
              componentOf := t.componentOf[member := t.nextComponent]);
      assert s.stack[..from] == s.stack[..from - 1] + [member];
      from := from - 1;
      popping := member != name;
    }
  }

  lemma PopNone(s: Search)
    ensures Popped(s, |s.stack|) == s && s.stack[..|s.stack|] == s.stack
  {
    assert SetOf(s.stack[|s.stack|..]) == {};
    assert s.stack[..|s.stack|] == s.stack;
  }

  lemma StackHolds(s: Search, a: string)
    requires Shape(s) && a in s.onStack
    ensures a in s.stack
  {
  }

  lemma RootReturn(g: Graph, s: Search)
    requires Inv(g, s) && IsRoot(g, s)
    ensures Return(s) == s.(visits := s.visits[..|s.visits| - 1])
  {
    hide CalleesMet, LowestBounds, EndedLeadBack, VisitsLead, ComponentsReal, ClosedSet, StackShape, LeadsTo;
    if |s.visits| > 1 {
      var caller := s.visits[|s.visits| - 2].name;
      assert LowestLed(g, s, caller) && s.order[caller] < s.order[Top(s).name];
      assert s.lowest[caller := s.lowest[caller]] == s.lowest;
    }
  }

  lemma ReturnReady(g: Graph, s: Search)
    requires Shape(s) && s.visits != [] && Top(s).nextCallee >= |Successors(g, Top(s).name)|
    ensures CanReturn(g, s) && Top(s).name in s.order && Top(s).name in s.onStack
  {
    hide StackShape;
  }

  lemma WorkOfTop(g: Graph, s: Search)
    requires s.visits != []
    ensures Work(g, s.visits[..|s.visits| - 1]) < Work(g, s.visits)
    ensures Top(s).nextCallee < |Successors(g, Top(s).name)| ==> Work(g, Advance(s).visits) < Work(g, s.visits)
  {
    assert Advance(s).visits[..|s.visits| - 1] == s.visits[..|s.visits| - 1];
  }

  /** Looks at the next call of the visit on top. */
  method LookAtCall(g: Graph, s: Search) returns (t: Search)
    requires Inv(g, s) && s.visits != [] && Top(s).nextCallee < |Successors(g, Top(s).name)|
    requires s.order.Keys <= Functions(g)
    ensures Inv(g, t) && t.order.Keys <= Functions(g) && s.order.Keys <= t.order.Keys
    ensures t.order.Keys == s.order.Keys ==> Work(g, t.visits) < Work(g, s.visits)
  {
    hide Inv, Work, Functions, Shape;
    ShapeOf(g, s);
    WorkOfTop(g, s);
    TopOnStack(s);
    var callee := Successors(g, Top(s).name)[Top(s).nextCallee];
    CalleeKnown(g, Top(s).name, callee);
    if callee !in s.order {
      EnterCallee(g, s, callee);
      t := Enter(Advance(s), callee);
      assert callee in t.order.Keys;
    } else {
      MeetCallee(g, s, callee);
      t := MeetAgain(s, callee);
    }
  }

  /** Ends the visit on top, and its component when the function leads back no further than itself. */
  method EndVisit(g: Graph, s: Search) returns (t: Search)
    requires Inv(g, s) && s.visits != [] && Top(s).nextCallee >= |Successors(g, Top(s).name)|
    ensures Inv(g, t) && t.order == s.order && t.visits == s.visits[..|s.visits| - 1]
  {
    hide Inv, Shape, SetOf, WithComponent, Successors;
    ShapeOf(g, s);
    ReturnReady(g, s);
    var name := Top(s).name;
    t := Return(s);
    if s.lowest[name] != s.order[name] {
      ReturnInside(g, s);
      return;
    }
    RootReturn(g, s);
    StackHolds(s, name);
    ghost var from;
    t, from := PopComponent(t, name);
    CloseComponent(g, s, from);
    t := t.(nextComponent := t.nextComponent + 1);
    assert t == Closing(s, from);
  }

  /** Visits everything `root` leads to. */
  method VisitFrom(g: Graph, given: Search, root: string) returns (s: Search)
    requires Inv(g, given) && given.visits == [] && given.order.Keys <= Functions(g)
    requires root in Functions(g) && root !in given.order
    ensures Inv(g, s) && s.visits == [] && s.order.Keys <= Functions(g) && given.order.Keys + {root} <= s.order.Keys
  {
    hide Inv, Work, Functions, Successors;
    EnterRoot(g, given, root);
    s := Enter(given, root);
    assert s.order.Keys == given.order.Keys + {root};
    while s.visits != []
      invariant Inv(g, s) && s.order.Keys <= Functions(g) && given.order.Keys + {root} <= s.order.Keys
      decreases Functions(g) - s.order.Keys, Work(g, s.visits)
    {
      if Top(s).nextCallee < |Successors(g, Top(s).name)| {
        s := LookAtCall(g, s);
      } else {
        WorkOfTop(g, s);
        s := EndVisit(g, s);
      }
    }
  }

  lemma ShapeOf(g: Graph, s: Search)
    requires Inv(g, s)
    ensures Shape(s)
  {
  }

  lemma CalleeKnown(g: Graph, caller: string, callee: string)
    requires callee in Successors(g, caller)
    ensures callee in Functions(g)
  {
  }

  /** Every function met is in a component once nothing is being visited. */
  lemma IdleSearchDone(g: Graph, s: Search)
    requires Inv(g, s) && s.visits == []
    ensures s.componentOf.Keys == s.order.Keys && ComponentsReal(g, s.componentOf) && ClosedSet(g, s.componentOf.Keys)
  {
    hide ComponentsReal, ClosedSet, LowestReal, LowestBounds, VisitsLead, EndedLeadBack, CalleesMet, StackShape,
         VisitsShape;
    IdleStackEmpty(g, s);
  }

  /** Gives two functions the same component exactly when each leads to the other, whatever the roots' order. */
  method ComponentsOf(g: Graph) returns (componentOf: map<string, nat>)
    ensures componentOf.Keys == Functions(g)
    ensures ComponentsReal(g, componentOf)
  {
    hide Inv;
    var s := Search(map[], map[], map[], {}, [], [], 0, 0);
    NothingMet(g);
    var roots := g.Keys;
    while roots != {}
      invariant Inv(g, s) && s.visits == [] && s.order.Keys <= Functions(g)
      invariant roots <= g.Keys && g.Keys - roots <= s.order.Keys
    {
      var root :| root in roots;
      roots := roots - {root};
      if root !in s.order {
        s := VisitFrom(g, s, root);
      }
    }
    IdleSearchDone(g, s);
    componentOf := s.componentOf;
    CalleesIncluded(g, componentOf.Keys);
  }

  lemma NothingMet(g: Graph)
    ensures Inv(g, Search(map[], map[], map[], {}, [], [], 0, 0))
  {
  }

  lemma CalleesIncluded(g: Graph, names: set<string>)
    requires g.Keys <= names && ClosedSet(g, names)
    ensures Functions(g) <= names
  {
    forall a, b | a in g && b in g[a]
      ensures b in names
    {
      assert b in Successors(g, a);
    }
  }

  // ----- the calls that close a cycle --------------------------------------------------------------------

  /** The callees of each caller, in the order of the sites. */
  function CallGraph(sites: seq<DirectCallSite>): Graph {
    if sites == [] then map[]
    else
      var before, last := CallGraph(sites[..|sites| - 1]), sites[|sites| - 1];
      before[last.caller := Successors(before, last.caller) + [last.callee]]
  }

  lemma {:induction false} SiteIsCall(sites: seq<DirectCallSite>, i: nat)
    requires i < |sites|
    ensures sites[i].callee in Successors(CallGraph(sites), sites[i].caller)
  {
    if i < |sites| - 1 {
      SiteIsCall(sites[..|sites| - 1], i);
    }
  }

  /** The calls whose callee leads back to their caller. */
  method CallsClosingCycles(sites: seq<DirectCallSite>) returns (closing: set<nat>)
    ensures forall call :: call in closing <==>
              exists i | 0 <= i < |sites| ::
                sites[i].call == Some(call) && Reaches(CallGraph(sites), sites[i].callee, sites[i].caller)
  {
    hide Reaches;
    var calleesByCaller: Graph := map[];
    for i := 0 to |sites|
      invariant calleesByCaller == CallGraph(sites[..i])
    {
      assert sites[..i + 1][..i] == sites[..i];
      calleesByCaller := calleesByCaller[sites[i].caller :=
        Successors(calleesByCaller, sites[i].caller) + [sites[i].callee]];
    }
    assert sites[..|sites|] == sites;
    var componentOf := ComponentsOf(calleesByCaller);

    closing := {};
    for i := 0 to |sites|
      invariant forall call :: call in closing <==>
                  exists k | 0 <= k < i ::
                    sites[k].call == Some(call) && Reaches(CallGraph(sites), sites[k].callee, sites[k].caller)
    {
      SiteClosesCycle(sites, componentOf, i);
      if sites[i].call.Some? && componentOf[sites[i].caller] == componentOf[sites[i].callee] {
        closing := closing + {sites[i].call.value};
      }
    }
  }

  lemma SiteClosesCycle(sites: seq<DirectCallSite>, componentOf: map<string, nat>, i: nat)
    requires i < |sites| && componentOf.Keys == Functions(CallGraph(sites))
    requires ComponentsReal(CallGraph(sites), componentOf)
    ensures sites[i].caller in componentOf && sites[i].callee in componentOf
    ensures componentOf[sites[i].caller] == componentOf[sites[i].callee]
       <==> Reaches(CallGraph(sites), sites[i].callee, sites[i].caller)
  {
    hide Reaches, CallGraph, Functions;
    SiteIsCall(sites, i);
    CallsAreFunctions(CallGraph(sites), sites[i].caller, sites[i].callee);
    ReachesSuccessor(CallGraph(sites), sites[i].caller, sites[i].callee);
  }

  lemma CallsAreFunctions(g: Graph, caller: string, callee: string)
    requires callee in Successors(g, caller)
    ensures caller in Functions(g) && callee in Functions(g)
  {
  }
}
