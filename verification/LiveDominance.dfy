/** What runs before what on every path that constant switches leave open. */
module LiveDominance {
  import opened ControlFlow

  /** One step of a run: the next instruction, or the start of a live successor. */
  ghost predicate Step(f: Function, live: set<nat>, p: Point, q: Point) {
    && f.Contains(p)
    && if p.index + 1 < f.blocks[p.block].size then q == Point(p.block, p.index + 1)
       else q.block in f.blocks[p.block].successors && q.block in live && q.index == 0
  }

  ghost predicate Steps(f: Function, live: set<nat>, path: seq<Point>) {
    forall i | 0 < i < |path| :: Step(f, live, path[i - 1], path[i])
  }

  ghost predicate IsTrace(f: Function, live: set<nat>, trace: seq<Point>) {
    trace != [] && trace[0] == Point(0, 0) && 0 in live && Steps(f, live, trace)
  }

  ghost predicate EndsAt(trace: seq<Point>, p: Point) {
    trace != [] && trace[|trace| - 1] == p
  }

  ghost predicate Reached(f: Function, live: set<nat>, p: Point) {
    exists trace: seq<Point> :: IsTrace(f, live, trace) && EndsAt(trace, p)
  }

  /** Every run that comes to `later` has come to `earlier`. */
  ghost predicate Dominates(f: Function, live: set<nat>, earlier: Point, later: Point) {
    forall trace: seq<Point> | IsTrace(f, live, trace) && EndsAt(trace, later) :: earlier in trace
  }

  ghost predicate Crosses(trace: seq<Point>, branch: nat, successor: nat, i: nat) {
    0 < i < |trace| && trace[i - 1].block == branch && trace[i] == Point(successor, 0)
  }

  /** Every run that comes to the block has taken the edge. */
  ghost predicate EdgeDominates(f: Function, live: set<nat>, branch: nat, successor: nat, block: nat) {
    forall trace: seq<Point> | IsTrace(f, live, trace) && EndsAt(trace, Point(block, 0)) ::
      exists i: nat :: Crosses(trace, branch, successor, i)
  }

  /** Some run comes back to the point. */
  ghost predicate OnCycle(f: Function, live: set<nat>, p: Point) {
    exists path: seq<Point> :: Steps(f, live, path) && |path| > 1 && path[0] == p && EndsAt(path, p)
  }

  // ----- pieces of a run ---------------------------------------------------------------------------

  lemma PrefixIsTrace(f: Function, live: set<nat>, trace: seq<Point>, n: nat)
    requires IsTrace(f, live, trace) && n < |trace|
    ensures IsTrace(f, live, trace[..n + 1]) && EndsAt(trace[..n + 1], trace[n])
  {
    hide Step;
    var prefix := trace[..n + 1];
    assert forall i | 0 <= i < |prefix| :: prefix[i] == trace[i];
  }

  lemma SegmentSteps(f: Function, live: set<nat>, path: seq<Point>, from: nat, to: nat)
    requires Steps(f, live, path) && from <= to < |path|
    ensures Steps(f, live, path[from..to + 1])
  {
    hide Step;
    var segment := path[from..to + 1];
    forall i | 0 < i < |segment|
      ensures Step(f, live, segment[i - 1], segment[i])
    {
      assert segment[i - 1] == path[from + i - 1] && segment[i] == path[from + i];
    }
  }

  lemma JoinedSteps(f: Function, live: set<nat>, p: seq<Point>, q: seq<Point>)
    requires Steps(f, live, p) && Steps(f, live, q) && p != [] && q != [] && p[|p| - 1] == q[0]
    ensures Steps(f, live, p + q[1..])
  {
    hide Step;
    var joined := p + q[1..];
    forall i | 0 < i < |joined|
      ensures Step(f, live, joined[i - 1], joined[i])
    {
      if i < |p| {
        assert joined[i - 1] == p[i - 1] && joined[i] == p[i];
      } else {
        assert joined[i] == q[i - |p| + 1] && joined[i - 1] == q[i - |p|];
      }
    }
  }

  /** The run came into its block at the top. */
  lemma {:induction false} EnteredAtTop(f: Function, live: set<nat>, trace: seq<Point>, n: nat)
    requires IsTrace(f, live, trace) && n < |trace|
    ensures trace[n].index <= n
    ensures forall k: nat | k <= trace[n].index :: trace[n - trace[n].index + k] == Point(trace[n].block, k)
  {
    if n > 0 && trace[n].index > 0 {
      EnteredAtTop(f, live, trace, n - 1);
      assert Step(f, live, trace[n - 1], trace[n]);
      var top := n - trace[n].index;
      forall k: nat | k <= trace[n].index
        ensures trace[top + k] == Point(trace[n].block, k)
      {
        assert k < trace[n].index ==> trace[n - 1 - trace[n - 1].index + k] == Point(trace[n - 1].block, k);
      }
    } else if n > 0 {
      assert Step(f, live, trace[n - 1], trace[n]);
    }
  }

  /** A run that leaves a block has come to every instruction of it. */
  lemma {:induction false} LeftAtBottom(f: Function, live: set<nat>, trace: seq<Point>, n: nat, m: nat, index: nat)
    requires f.Valid() && IsTrace(f, live, trace) && n < m < |trace| && trace[m].block != trace[n].block
    requires trace[n].block < |f.blocks| && index < f.blocks[trace[n].block].size
    ensures Point(trace[n].block, index) in trace[..m + 1]
    decreases m - n
  {
    assert Step(f, live, trace[n], trace[n + 1]);
    if index <= trace[n].index {
      EnteredAtTop(f, live, trace, n);
      assert trace[n - trace[n].index + index] == Point(trace[n].block, index);
    } else {
      LeftAtBottom(f, live, trace, n + 1, m, index);
    }
  }

  // ----- dominance along a run ---------------------------------------------------------------------

  lemma DominatorBefore(f: Function, live: set<nat>, earlier: Point, trace: seq<Point>, n: nat) returns (k: nat)
    requires IsTrace(f, live, trace) && n < |trace| && Dominates(f, live, earlier, trace[n])
    ensures k <= n && trace[k] == earlier
  {
    hide Steps;
    PrefixIsTrace(f, live, trace, n);
    assert earlier in trace[..n + 1];
    k :| k <= n && trace[k] == earlier;
  }

  /** A run that comes from a point to another and back has been around a cycle. */
  lemma RoundTrip(f: Function, live: set<nat>, trace: seq<Point>, k: nat, j: nat, i: nat)
    requires IsTrace(f, live, trace) && k <= j < i < |trace| && trace[k] == trace[i]
    ensures OnCycle(f, live, trace[j])
  {
    hide Step;
    SegmentSteps(f, live, trace, j, i);
    SegmentSteps(f, live, trace, k, j);
    var away, back := trace[j..i + 1], trace[k..j + 1];
    JoinedSteps(f, live, away, back);
    var round := away + back[1..];
    assert round[0] == trace[j];
    assert EndsAt(round, trace[j]);
  }

  /** What dominates a point that no run comes back to never runs after it. */
  lemma NeverAfter(f: Function, live: set<nat>, earlier: Point, later: Point, trace: seq<Point>, i: nat, j: nat)
    requires IsTrace(f, live, trace) && Dominates(f, live, earlier, later) && !OnCycle(f, live, later)
    requires i < |trace| && j < |trace| && trace[i] == earlier && trace[j] == later
    ensures i <= j
  {
    hide Steps, Dominates, OnCycle;
    if j < i {
      var k := DominatorBefore(f, live, earlier, trace, j);
      RoundTrip(f, live, trace, k, j, i);
    }
  }

  /** A run comes once to a point off every cycle. */
  lemma RunsOnce(f: Function, live: set<nat>, p: Point, trace: seq<Point>, i: nat, j: nat)
    requires IsTrace(f, live, trace) && !OnCycle(f, live, p)
    requires i <= j < |trace| && trace[i] == p && trace[j] == p
    ensures i == j
  {
    hide Steps, OnCycle;
    if i < j {
      RoundTrip(f, live, trace, i, i, j);
    }
  }

  lemma FirstVisit(trace: seq<Point>, i: nat) returns (m: nat)
    requires i < |trace|
    ensures m <= i && trace[m] == trace[i] && forall k: nat | k < m :: trace[k] != trace[i]
  {
    m := 0;
    while trace[m] != trace[i]
      invariant m <= i && forall k: nat | k < m :: trace[k] != trace[i]
      decreases i - m
    {
      m := m + 1;
    }
  }

  /** What `first` dominates comes after the first visit to it. */
  lemma NotBeforeFirst(f: Function, live: set<nat>, first: Point, middle: Point, trace: seq<Point>, m: nat, q: nat)
    requires IsTrace(f, live, trace) && Dominates(f, live, first, middle) && q <= m < |trace| && trace[q] == middle
    requires trace[m] == first && forall k: nat | k < m :: trace[k] != first
    ensures middle == first
  {
    hide Steps, Dominates;
    var p := DominatorBefore(f, live, first, trace, q);
  }

  /** When `first` dominates `middle` and `middle` dominates `last`, every `first` on the way to a `last` has a
      `middle` between them: otherwise the run could go around it. */
  lemma MiddleBetween(f: Function, live: set<nat>, first: Point, middle: Point, last: Point, trace: seq<Point>,
                      i: nat, j: nat)
    returns (k: nat)
    requires IsTrace(f, live, trace) && Dominates(f, live, first, middle) && Dominates(f, live, middle, last)
    requires i <= j < |trace| && trace[i] == first && trace[j] == last
    ensures i <= k <= j && trace[k] == middle
  {
    hide Steps, Dominates;
    if middle == first {
      return i;
    }
    var m := FirstVisit(trace, i);
    PrefixIsTrace(f, live, trace, m);
    SegmentSteps(f, live, trace, i, j);
    var short := trace[..m + 1] + trace[i..j + 1][1..];
    JoinedSteps(f, live, trace[..m + 1], trace[i..j + 1]);
    assert EndsAt(short, last) && IsTrace(f, live, short);
    Meets(f, live, middle, last, short);
    var x: nat :| x < |short| && short[x] == middle;
    if x <= m {
      assert trace[x] == middle;
      NotBeforeFirst(f, live, first, middle, trace, m, x);
    }
    k := i + x - m;
  }

  lemma Meets(f: Function, live: set<nat>, earlier: Point, later: Point, trace: seq<Point>)
    requires Dominates(f, live, earlier, later) && IsTrace(f, live, trace) && EndsAt(trace, later)
    ensures earlier in trace
  {
  }

  /** A run in a block that an edge dominates has taken the edge before. */
  lemma EdgeBefore(f: Function, live: set<nat>, branch: nat, successor: nat, trace: seq<Point>, n: nat) returns (i: nat)
    requires IsTrace(f, live, trace) && n < |trace| && EdgeDominates(f, live, branch, successor, trace[n].block)
    ensures i <= n && Crosses(trace, branch, successor, i)
  {
    EnteredAtTop(f, live, trace, n);
    var top := n - trace[n].index;
    assert trace[top + 0] == Point(trace[n].block, 0);
    PrefixIsTrace(f, live, trace, top);
    hide Steps;
    i :| Crosses(trace[..top + 1], branch, successor, i);
  }

  // ----- the blocks constant switches leave open ---------------------------------------------------

  /** Where a block goes: the arm its constant selects, or any successor. */
  function Arms(f: Function, taken: seq<Option<nat>>, block: nat): seq<nat>
    requires block < |f.blocks| && |taken| == |f.blocks|
  {
    if taken[block].Some? then [taken[block].value] else f.blocks[block].successors
  }

  ghost predicate ValidTaken(f: Function, taken: seq<Option<nat>>) {
    && |taken| == |f.blocks|
    && forall b | 0 <= b < |taken| && taken[b].Some? :: taken[b].value in f.blocks[b].successors
  }

  ghost predicate IsBlockPath(f: Function, taken: seq<Option<nat>>, path: seq<nat>)
    requires |taken| == |f.blocks|
  {
    && path != [] && path[0] == 0
    && forall i | 0 < i < |path| :: FollowsArm(f, taken, path[i - 1], path[i])
  }

  predicate FollowsArm(f: Function, taken: seq<Option<nat>>, block: nat, arm: nat)
    requires |taken| == |f.blocks|
  {
    && block < |f.blocks|
    && match taken[block]
       case Some(constant) => arm == constant
       case None => exists k | 0 <= k < |f.blocks[block].successors| :: f.blocks[block].successors[k] == arm
  }

  lemma FollowsIff(f: Function, taken: seq<Option<nat>>, block: nat, arm: nat)
    requires |taken| == |f.blocks|
    ensures FollowsArm(f, taken, block, arm) <==> block < |f.blocks| && arm in Arms(f, taken, block)
  {
  }

  ghost predicate IsOpen(f: Function, taken: seq<Option<nat>>, block: nat)
    requires |taken| == |f.blocks|
  {
    exists path :: IsBlockPath(f, taken, path) && path[|path| - 1] == block
  }

  lemma ArmIsOpen(f: Function, taken: seq<Option<nat>>, block: nat, arm: nat)
    requires |taken| == |f.blocks| && block < |f.blocks| && IsOpen(f, taken, block) && arm in Arms(f, taken, block)
    ensures IsOpen(f, taken, arm)
  {
    hide Arms;
    var path :| IsBlockPath(f, taken, path) && path[|path| - 1] == block;
    var longer := path + [arm];
    FollowsIff(f, taken, block, arm);
    assert IsBlockPath(f, taken, longer) && longer[|longer| - 1] == arm;
  }

  lemma {:induction false} OpenWithin(f: Function, taken: seq<Option<nat>>, blocks: set<nat>, path: seq<nat>)
    requires |taken| == |f.blocks| && IsBlockPath(f, taken, path) && 0 in blocks
    requires forall b | b in blocks && b < |f.blocks| :: forall c | c in Arms(f, taken, b) :: c in blocks
    ensures path[|path| - 1] in blocks
  {
    hide Arms;
    if |path| > 1 {
      assert IsBlockPath(f, taken, path[..|path| - 1]);
      OpenWithin(f, taken, blocks, path[..|path| - 1]);
      FollowsIff(f, taken, path[|path| - 2], path[|path| - 1]);
    }
  }

  lemma EntryIsOpen(f: Function, taken: seq<Option<nat>>)
    requires |taken| == |f.blocks|
    ensures IsOpen(f, taken, 0)
  {
    assert IsBlockPath(f, taken, [0]);
  }

  lemma SmallSet(s: set<nat>, n: nat)
    requires forall x | x in s :: x < n
    ensures |s| <= n
  {
    if n == 0 {
      assert s == {};
    } else {
      SmallSet(s - {n - 1}, n - 1);
      assert |s| <= |s - {n - 1}| + 1;
    }
  }

  ghost predicate BoundedBlocks(f: Function, blocks: set<nat>) {
    forall b | b in blocks :: b < |f.blocks|
  }

  lemma RoomLeft(f: Function, blocks: set<nat>, block: nat)
    requires BoundedBlocks(f, blocks) && block < |f.blocks| && block !in blocks
    ensures BoundedBlocks(f, blocks + {block}) && |blocks| < |blocks + {block}| <= |f.blocks|
  {
    SmallSet(blocks + {block}, |f.blocks|);
  }

  /** The blocks that can run once every switch on a constant is resolved: exactly those some path comes to. */
  method LiveBlocks(f: Function, taken: seq<Option<nat>>) returns (live: set<nat>)
    requires f.Valid() && ValidTaken(f, taken)
    ensures IsLive(f, taken, live) && BoundedBlocks(f, live)
  {
    hide IsOpen;
    EntryIsOpen(f, taken);
    live := {};
    var pending: seq<nat> := [0];
    SmallSet(live, |f.blocks|);
    while pending != []
      invariant BoundedBlocks(f, live) && |live| <= |f.blocks|
      invariant forall block | block in live :: IsOpen(f, taken, block)
      invariant forall block | block in pending :: block < |f.blocks| && IsOpen(f, taken, block)
      invariant 0 in live || 0 in pending
      invariant forall b | b in live :: forall c | c in Arms(f, taken, b) :: c in live || c in pending
      decreases |f.blocks| - |live|, |pending|
    {
      var block, rest := pending[|pending| - 1], pending[..|pending| - 1];
      assert pending == rest + [block];
      assert forall b :: b in pending <==> b in rest || b == block;
      pending := rest;
      if block !in live {
        RoomLeft(f, live, block);
        live := live + {block};
        forall arm | arm in Arms(f, taken, block)
          ensures arm < |f.blocks| && IsOpen(f, taken, arm)
        {
          assert arm in f.blocks[block].successors;
          ArmIsOpen(f, taken, block, arm);
        }
        pending := rest + Arms(f, taken, block);
        assert forall b | b in pending :: b in rest || b in Arms(f, taken, block);
      }
    }
    forall block | IsOpen(f, taken, block)
      ensures block in live
    {
      OpenIsIn(f, taken, live, block);
    }
  }

  lemma OpenIsIn(f: Function, taken: seq<Option<nat>>, blocks: set<nat>, block: nat)
    requires |taken| == |f.blocks| && 0 in blocks && IsOpen(f, taken, block)
    requires forall b | b in blocks && b < |f.blocks| :: forall c | c in Arms(f, taken, b) :: c in blocks
    ensures block in blocks
  {
    var path :| IsBlockPath(f, taken, path) && path[|path| - 1] == block;
    OpenWithin(f, taken, blocks, path);
  }

  /** A run of the function, taking the arm each constant switch selects. */
  ghost predicate IsRun(f: Function, taken: seq<Option<nat>>, run: seq<Point>)
    requires |taken| == |f.blocks|
  {
    && run != [] && run[0] == Point(0, 0)
    && forall i | 0 < i < |run| :: RunsOn(f, taken, run[i - 1], run[i])
  }

  predicate RunsOn(f: Function, taken: seq<Option<nat>>, p: Point, q: Point)
    requires |taken| == |f.blocks|
  {
    && f.Contains(p)
    && if p.index + 1 < f.blocks[p.block].size then q == Point(p.block, p.index + 1)
       else FollowsArm(f, taken, p.block, q.block) && q.index == 0
  }

  ghost predicate IsLive(f: Function, taken: seq<Option<nat>>, live: set<nat>)
    requires |taken| == |f.blocks|
  {
    forall block :: block in live <==> IsOpen(f, taken, block)
  }

  /** Every run is one of the traces dominance is about. */
  lemma {:induction false} RunIsTrace(f: Function, taken: seq<Option<nat>>, live: set<nat>, run: seq<Point>)
    requires ValidTaken(f, taken) && IsLive(f, taken, live) && IsRun(f, taken, run)
    ensures IsTrace(f, live, run) && run[|run| - 1].block in live
  {
    hide IsOpen;
    EntryIsOpen(f, taken);
    if |run| > 1 {
      var before, p, q := run[..|run| - 1], run[|run| - 2], run[|run| - 1];
      assert RunsOn(f, taken, p, q);
      assert IsRun(f, taken, before);
      RunIsTrace(f, taken, live, before);
      if FollowsArm(f, taken, p.block, q.block) {
        ArmIsOpen(f, taken, p.block, q.block);
      }
      assert Step(f, live, p, q);
      assert run == before + [q];
    }
  }

  // ----- the search --------------------------------------------------------------------------------

  /** Some run comes to the top of the block without entering `avoided`. */
  ghost predicate ReachedAround(f: Function, live: set<nat>, avoided: nat, block: nat) {
    exists trace: seq<Point> :: IsTrace(f, live, trace) && EndsAt(trace, Point(block, 0))
                    && forall i | 0 <= i < |trace| :: trace[i].block != avoided
  }

  lemma {:induction false} RunDown(f: Function, live: set<nat>, trace: seq<Point>, block: nat, index: nat)
    returns (longer: seq<Point>)
    requires f.Valid() && IsTrace(f, live, trace) && EndsAt(trace, Point(block, 0))
    requires block < |f.blocks| && index < f.blocks[block].size
    ensures IsTrace(f, live, longer) && EndsAt(longer, Point(block, index))
    ensures |trace| <= |longer| && longer[..|trace|] == trace
    ensures forall i | |trace| <= i < |longer| :: longer[i].block == block && longer[i].index <= index
  {
    longer := trace;
    if index > 0 {
      longer := RunDown(f, live, trace, block, index - 1);
      longer := longer + [Point(block, index)];
    }
  }

  lemma AroundToSuccessor(f: Function, live: set<nat>, avoided: nat, block: nat, successor: nat)
    requires f.Valid() && block < |f.blocks| && ReachedAround(f, live, avoided, block)
    requires successor in f.blocks[block].successors && successor in live && successor != avoided
    ensures ReachedAround(f, live, avoided, successor)
  {
    var trace: seq<Point> :| IsTrace(f, live, trace) && EndsAt(trace, Point(block, 0))
                 && forall i | 0 <= i < |trace| :: trace[i].block != avoided;
    var longer := RunDown(f, live, trace, block, f.blocks[block].size - 1);
    forall i | 0 <= i < |longer|
      ensures longer[i].block != avoided
    {
      assert i < |trace| ==> longer[i] == trace[i];
      assert trace[|trace| - 1].block == block;
    }
    var further := longer + [Point(successor, 0)];
    assert Step(f, live, longer[|longer| - 1], Point(successor, 0));
    assert IsTrace(f, live, further);
    assert EndsAt(further, Point(successor, 0));
    assert forall i | 0 <= i < |further| :: further[i].block != avoided;
  }

  /** `visited` holds all the live blocks a run comes to before `avoided`. */
  ghost predicate ClosedAround(f: Function, live: set<nat>, avoided: nat, visited: set<nat>, pending: seq<nat>) {
    && (0 in live && 0 != avoided ==> 0 in visited || 0 in pending)
    && forall b | b in visited && b < |f.blocks| ::
         forall c | c in f.blocks[b].successors && c in live && c != avoided :: c in visited || c in pending
  }

  lemma {:induction false} StaysAround(f: Function, live: set<nat>, avoided: nat, visited: set<nat>,
                                       trace: seq<Point>, n: nat)
    requires ClosedAround(f, live, avoided, visited, []) && IsTrace(f, live, trace) && n < |trace|
    requires forall i: nat | i <= n :: trace[i].block != avoided
    ensures trace[n].block in visited
  {
    if n > 0 {
      StaysAround(f, live, avoided, visited, trace, n - 1);
      assert Step(f, live, trace[n - 1], trace[n]);
    } else {
      assert trace[0].block != avoided;
    }
  }

  /** Nothing got around the earlier block, so every run to the later one went through it. */
  lemma NoneAround(f: Function, live: set<nat>, earlier: Point, later: Point, visited: set<nat>)
    requires f.Valid() && f.Contains(earlier) && earlier.block != later.block
    requires ClosedAround(f, live, earlier.block, visited, []) && later.block !in visited
    ensures Dominates(f, live, earlier, later)
  {
    hide Step;
    forall trace: seq<Point> | IsTrace(f, live, trace) && EndsAt(trace, later)
      ensures earlier in trace
    {
      var last := |trace| - 1;
      if forall i: nat | i <= last :: trace[i].block != earlier.block {
        StaysAround(f, live, earlier.block, visited, trace, last);
        assert false;
      }
      var n: nat :| n <= last && trace[n].block == earlier.block;
      LeftAtBottom(f, live, trace, n, last, earlier.index);
    }
  }

  /** A run gets to the later block around the earlier one. */
  lemma SomeAround(f: Function, live: set<nat>, earlier: Point, later: Point)
    requires f.Valid() && f.Contains(later) && earlier.block != later.block
    requires ReachedAround(f, live, earlier.block, later.block)
    ensures !Dominates(f, live, earlier, later)
  {
    var trace: seq<Point> :| IsTrace(f, live, trace) && EndsAt(trace, Point(later.block, 0))
                 && forall i | 0 <= i < |trace| :: trace[i].block != earlier.block;
    var longer := RunDown(f, live, trace, later.block, later.index);
    assert forall i | 0 <= i < |trace| :: longer[i] == trace[i];
    assert earlier !in longer;
  }

  /** In one block the first visit decides. */
  lemma InOneBlock(f: Function, live: set<nat>, earlier: Point, later: Point)
    requires f.Valid() && f.Contains(earlier) && f.Contains(later) && earlier.block == later.block
    ensures earlier.index <= later.index ==> Dominates(f, live, earlier, later)
    ensures later.index < earlier.index && Reached(f, live, later) ==> !Dominates(f, live, earlier, later)
  {
    if earlier.index <= later.index {
      forall trace: seq<Point> | IsTrace(f, live, trace) && EndsAt(trace, later)
        ensures earlier in trace
      {
        EnteredAtTop(f, live, trace, |trace| - 1);
        assert trace[|trace| - 1 - later.index + earlier.index] == earlier;
      }
    } else if Reached(f, live, later) {
      var trace: seq<Point> :| IsTrace(f, live, trace) && EndsAt(trace, later);
      var n := FirstIn(trace, later.block);
      EnteredAtTop(f, live, trace, n);
      assert trace[n - trace[n].index + 0] == Point(later.block, 0);
      PrefixIsTrace(f, live, trace, n);
      var longer := RunDown(f, live, trace[..n + 1], later.block, later.index);
      assert forall i | 0 <= i < n :: longer[..n + 1][i] == trace[i];
      assert longer[..n + 1][n] == trace[n];
      assert earlier !in longer;
    }
  }

  lemma FirstIn(trace: seq<Point>, block: nat) returns (n: nat)
    requires exists i: nat | i < |trace| :: trace[i].block == block
    ensures n < |trace| && trace[n].block == block && forall k: nat | k < n :: trace[k].block != block
  {
    n := 0;
    while trace[n].block != block
      invariant n < |trace| && forall k: nat | k < n :: trace[k].block != block
      decreases |trace| - n
    {
      n := n + 1;
    }
  }

  /** A run never meets a block that is not live. */
  lemma {:induction false} OnlyLive(f: Function, live: set<nat>, trace: seq<Point>, n: nat)
    requires IsTrace(f, live, trace) && n < |trace|
    ensures trace[n].block in live
  {
    if n > 0 {
      OnlyLive(f, live, trace, n - 1);
      assert Step(f, live, trace[n - 1], trace[n]);
    }
  }

  lemma DeadDominatesNothing(f: Function, live: set<nat>, earlier: Point, later: Point)
    requires earlier.block !in live && Reached(f, live, later)
    ensures !Dominates(f, live, earlier, later)
  {
    var trace: seq<Point> :| IsTrace(f, live, trace) && EndsAt(trace, later);
    forall n: nat | n < |trace|
      ensures trace[n] != earlier
    {
      OnlyLive(f, live, trace, n);
    }
  }

  /** True exactly when every live path to `later` passes `earlier` first, if any comes there; where none does, true of a
      live block, and of an instruction that stands first in the same block. */
  method LiveDominates(f: Function, live: set<nat>, earlier: Point, later: Point) returns (dominates: bool)
    requires f.Valid() && f.Contains(earlier) && f.Contains(later) && BoundedBlocks(f, live)
    ensures dominates ==> Dominates(f, live, earlier, later)
    ensures !dominates && Reached(f, live, later) ==> !Dominates(f, live, earlier, later)
    ensures dominates <==> if earlier.block == later.block then earlier.index <= later.index
                           else earlier.block in live && Dominates(f, live, earlier, later)
  {
    hide Dominates, Reached, ReachedAround;
    if earlier.block == later.block {
      InOneBlock(f, live, earlier, later);
      return earlier.index <= later.index;
    }
    if earlier.block !in live {
      if Reached(f, live, later) {
        DeadDominatesNothing(f, live, earlier, later);
      }
      return false;
    }
    var visited: set<nat>, pending: seq<nat> := {}, [0];
    SmallSet(visited, |f.blocks|);
    AroundToEntry(f, live, earlier.block);
    while pending != []
      invariant BoundedBlocks(f, visited) && |visited| <= |f.blocks| && later.block !in visited
      invariant forall b | b in visited :: ReachedAround(f, live, earlier.block, b)
      invariant forall b | b in pending && b in live && b != earlier.block ::
                  b < |f.blocks| && ReachedAround(f, live, earlier.block, b)
      invariant ClosedAround(f, live, earlier.block, visited, pending)
      decreases |f.blocks| - |visited|, |pending|
    {
      var block, rest := pending[|pending| - 1], pending[..|pending| - 1];
      assert pending == rest + [block];
      assert forall b :: b in pending <==> b in rest || b == block;
      pending := rest;
      if block != earlier.block && block in live && block !in visited {
        if block == later.block {
          SomeAround(f, live, earlier, later);
          return false;
        }
        RoomLeft(f, visited, block);
        visited := visited + {block};
        forall c | c in f.blocks[block].successors && c in live && c != earlier.block
          ensures ReachedAround(f, live, earlier.block, c)
        {
          AroundToSuccessor(f, live, earlier.block, block, c);
        }
        pending := rest + f.blocks[block].successors;
      }
    }
    NoneAround(f, live, earlier, later, visited);
    return true;
  }

  lemma AroundToEntry(f: Function, live: set<nat>, avoided: nat)
    ensures 0 in live && 0 != avoided ==> ReachedAround(f, live, avoided, 0)
  {
    if 0 in live && 0 != avoided {
      var trace := [Point(0, 0)];
      assert IsTrace(f, live, trace) && EndsAt(trace, Point(0, 0));
      assert forall i | 0 <= i < |trace| :: trace[i].block != avoided;
    }
  }

  /** Some run comes to every instruction of a live block. */
  lemma LiveIsReached(f: Function, taken: seq<Option<nat>>, live: set<nat>, p: Point)
    requires f.Valid() && ValidTaken(f, taken) && IsLive(f, taken, live) && f.Contains(p) && p.block in live
    ensures Reached(f, live, p)
  {
    assert IsOpen(f, taken, p.block);
    var path :| IsBlockPath(f, taken, path) && path[|path| - 1] == p.block;
    var trace := TraceAlong(f, taken, live, path);
    var longer := RunDown(f, live, trace, p.block, p.index);
  }

  lemma {:induction false} TraceAlong(f: Function, taken: seq<Option<nat>>, live: set<nat>, path: seq<nat>)
    returns (trace: seq<Point>)
    requires f.Valid() && ValidTaken(f, taken) && IsLive(f, taken, live) && IsBlockPath(f, taken, path)
    ensures IsTrace(f, live, trace) && EndsAt(trace, Point(path[|path| - 1], 0))
  {
    assert path[|path| - 1] in live by {
      assert IsOpen(f, taken, path[|path| - 1]);
    }
    if |path| == 1 {
      trace := [Point(0, 0)];
    } else {
      var before, block, arm := path[..|path| - 1], path[|path| - 2], path[|path| - 1];
      assert IsBlockPath(f, taken, before);
      assert FollowsArm(f, taken, block, arm);
      trace := TraceAlong(f, taken, live, before);
      trace := RunDown(f, live, trace, block, f.blocks[block].size - 1);
      assert Step(f, live, trace[|trace| - 1], Point(arm, 0));
      trace := trace + [Point(arm, 0)];
    }
  }
}
