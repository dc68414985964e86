/** Where a thread may still run, and where its handle still names it: one flood over a function. */
module ThreadFlood {
  import opened ControlFlow

  /** Where a join has certainly waited: once a call has returned, along the normal edge of an invoke, or on the
      branch taken when its result reads as success. */
  datatype JoinSuccess =
    | AfterCall(call: Point)
    | AlongEdge(branch: nat, successor: nat)

  /** Points past which a thread certainly no longer runs. */
  datatype Kills = Kills(from: set<Point>, edges: set<(nat, nat)>) {
    function Add(success: JoinSuccess): Kills {
      match success
      case AfterCall(call) => this.(from := from + {Point(call.block, call.index + 1)})
      case AlongEdge(branch, successor) => this.(edges := edges + {(branch, successor)})
    }
  }

  /** A join ends the thread its handle holds, so `byHandle` no longer applies once a restart refills the handle. */
  datatype FloodKills = FloodKills(byHandle: Kills, always: Kills, restarts: set<Point>)

  /** Where the thread starts: it runs on entry, after a call that starts it, or past an invoke that did not throw. */
  datatype Start =
    | OnEntry
    | AfterStart(call: Point)
    | PastInvoke(invoke: Point, normalDest: nat)

  ghost predicate ValidStart(f: Function, start: Start) {
    match start
    case OnEntry => true
    case AfterStart(call) => call.block < |f.blocks| && call.index + 1 < f.blocks[call.block].size
    case PastInvoke(invoke, dest) =>
      invoke.block < |f.blocks| && invoke.index + 1 == f.blocks[invoke.block].size
      && dest in f.blocks[invoke.block].successors && dest < |f.blocks|
  }

  // ----- what the flood is about: the paths of a running thread ----------------------------------

  /** A thread about to run an instruction, and whether its handle still holds it. */
  datatype Position = Position(block: nat, index: nat, named: bool)

  predicate EndedAt(k: FloodKills, block: nat, index: nat, named: bool) {
    Point(block, index) in k.always.from || (named && Point(block, index) in k.byHandle.from)
  }

  predicate EndedAlong(k: FloodKills, block: nat, successor: nat, named: bool) {
    (block, successor) in k.always.edges || (named && (block, successor) in k.byHandle.edges)
  }

  ghost predicate Moves(f: Function, k: FloodKills, a: Position, b: Position) {
    && a.block < |f.blocks| && a.index < f.blocks[a.block].size
    && !EndedAt(k, a.block, a.index, a.named)
    && var named := a.named && Point(a.block, a.index) !in k.restarts;
       if a.index + 1 < f.blocks[a.block].size then b == Position(a.block, a.index + 1, named)
       else b.block in f.blocks[a.block].successors && b.index == 0 && b.named == named
            && !EndedAlong(k, a.block, b.block, named)
  }

  function FirstPosition(start: Start): Position {
    match start
    case OnEntry => Position(0, 0, true)
    case AfterStart(call) => Position(call.block, call.index + 1, true)
    case PastInvoke(_, dest) => Position(dest, 0, true)
  }

  ghost predicate IsPath(f: Function, k: FloodKills, start: Start, path: seq<Position>) {
    && path != [] && path[0] == FirstPosition(start)
    && forall i | 0 < i < |path| :: Moves(f, k, path[i - 1], path[i])
  }

  /** Some path brings the thread to `p` without passing a point that ends it. */
  ghost predicate Arrives(f: Function, k: FloodKills, start: Start, p: Position) {
    exists path :: IsPath(f, k, start, path) && path[|path| - 1] == p
  }

  /** Some path has the thread still running at `p`. */
  ghost predicate RunsAt(f: Function, k: FloodKills, start: Start, p: Point, named: bool) {
    Arrives(f, k, start, Position(p.block, p.index, named)) && !EndedAt(k, p.block, p.index, named)
  }

  lemma ArrivesFirst(f: Function, k: FloodKills, start: Start)
    ensures Arrives(f, k, start, FirstPosition(start))
  {
    assert IsPath(f, k, start, [FirstPosition(start)]);
  }

  lemma ArrivesNext(f: Function, k: FloodKills, start: Start, a: Position, b: Position)
    requires Arrives(f, k, start, a) && Moves(f, k, a, b)
    ensures Arrives(f, k, start, b)
  {
    var path :| IsPath(f, k, start, path) && path[|path| - 1] == a;
    assert IsPath(f, k, start, path + [b]);
  }

  // ----- runs within one block -------------------------------------------------------------------

  /** Whether the handle still names the thread at `j`, when it did (or not) at `i`. */
  ghost predicate StillNamed(k: FloodKills, block: nat, i: nat, named: bool, j: nat) {
    named && forall m: nat | i <= m < j :: Point(block, m) !in k.restarts
  }

  /** The thread runs from `i` up to `j` without being ended before it. */
  ghost predicate RunsTo(k: FloodKills, block: nat, i: nat, named: bool, j: nat) {
    forall m: nat | i <= m < j :: !EndedAt(k, block, m, StillNamed(k, block, i, named, m))
  }

  lemma {:induction false} RunArrives(f: Function, k: FloodKills, start: Start, block: nat, i: nat, named: bool, j: nat)
    requires block < |f.blocks| && i <= j < f.blocks[block].size
    requires Arrives(f, k, start, Position(block, i, named)) && RunsTo(k, block, i, named, j)
    ensures Arrives(f, k, start, Position(block, j, StillNamed(k, block, i, named, j)))
    decreases j - i
  {
    hide Arrives;
    if i < j {
      RunArrives(f, k, start, block, i, named, j - 1);
      ArrivesNext(f, k, start, Position(block, j - 1, StillNamed(k, block, i, named, j - 1)),
                  Position(block, j, StillNamed(k, block, i, named, j)));
    }
  }

  /** Walks one block from `first`: the first instruction the thread no longer runs at, if any, and whether its
      handle still names it past the block. */
  method WalkBlock(f: Function, k: FloodKills, block: nat, first: nat, named: bool)
    returns (end: Option<nat>, namedAfter: bool)
    requires block < |f.blocks| && first < f.blocks[block].size
    ensures end.Some? ==> first <= end.value < f.blocks[block].size && RunsTo(k, block, first, named, end.value)
                          && EndedAt(k, block, end.value, StillNamed(k, block, first, named, end.value))
    ensures end.None? ==> RunsTo(k, block, first, named, f.blocks[block].size)
                          && namedAfter == StillNamed(k, block, first, named, f.blocks[block].size)
  {
    namedAfter := named;
    for i := first to f.blocks[block].size
      invariant namedAfter == StillNamed(k, block, first, named, i) && RunsTo(k, block, first, named, i)
    {
      if EndedAt(k, block, i, namedAfter) {
        return Some(i), namedAfter;
      }
      if Point(block, i) in k.restarts {
        namedAfter := false;
      }
    }
    end := None;
  }

  // ----- the result ------------------------------------------------------------------------------

  /** The blocks entered from their top, each with the first instruction the thread no longer runs at, and with
      whether every path entering it had the thread still in its handle. */
  datatype Reach = Reach(fromTop: map<nat, Option<nat>>, enteredNamed: map<nat, bool>, start: Start,
                         startEnd: Option<nat>, restarts: set<Point>)
  {
    predicate FromStart(p: Point) {
      && start.AfterStart? && p.block == start.call.block && start.call.index < p.index
      && Before(p, startEnd)
    }

    predicate FromTop(p: Point) {
      p.block in fromTop && Before(p, fromTop[p.block])
    }

    predicate Contains(p: Point) {
      FromTop(p) || FromStart(p)
    }
  }

  predicate Before(p: Point, end: Option<nat>) {
    end.None? || p.index < end.value
  }

  /** No restart from `first` up to `p`, when the handle named the thread there. */
  method NamedUpTo(r: Reach, first: nat, entered: bool, p: Point) returns (named: bool)
    requires first <= p.index
    ensures named <==> entered && forall m: nat | first <= m < p.index :: Point(p.block, m) !in r.restarts
  {
    named := entered;
    var i := first;
    while named && i != p.index
      invariant first <= i <= p.index
      invariant named <==> entered && forall m: nat | first <= m < i :: Point(p.block, m) !in r.restarts
      decreases p.index - i
    {
      named := Point(p.block, i) !in r.restarts;
      i := i + 1;
    }
  }

  /** Whether the handle still holds the thread at `p` on every path reaching it. */
  method NamedAt(r: Reach, p: Point) returns (namedAt: bool)
    requires p.block in r.fromTop ==> p.block in r.enteredNamed
    ensures namedAt <==> r.Contains(p) && SaysNamed(r, p)
  {
    var reached, named := false, true;
    if r.FromStart(p) {
      reached := true;
      named := NamedUpTo(r, r.start.call.index + 1, true, p);
    }
    if r.FromTop(p) {
      reached := true;
      var fromTop := NamedUpTo(r, 0, r.enteredNamed[p.block], p);
      named := named && fromTop;
    }
    namedAt := reached && named;
  }

  ghost predicate SaysNamed(r: Reach, p: Point)
    requires p.block in r.fromTop ==> p.block in r.enteredNamed
  {
    && (r.FromStart(p) ==> forall m: nat | r.start.call.index + 1 <= m < p.index :: Point(p.block, m) !in r.restarts)
    && (r.FromTop(p) ==> r.enteredNamed[p.block]
                         && forall m: nat | 0 <= m < p.index :: Point(p.block, m) !in r.restarts)
  }

  // ----- the flood ---------------------------------------------------------------------------------

  type Entered = map<nat, bool>

  /** The block is entered already, in a state in which the thread runs at least as far. */
  predicate Subsumed(entered: Entered, block: nat, named: bool) {
    block in entered && (entered[block] ==> named)
  }

  /** The thread runs through a whole block entered from its top, its handle naming it past the block or not. */
  ghost predicate Leaves(f: Function, k: FloodKills, entered: Entered, block: nat, named: bool)
    requires block < |f.blocks|
  {
    && block in entered && RunsTo(k, block, 0, entered[block], f.blocks[block].size)
    && named == StillNamed(k, block, 0, entered[block], f.blocks[block].size)
  }

  /** Every edge out of a block left is entered, or waits in `pending`. */
  ghost predicate Followed(f: Function, k: FloodKills, block: nat, named: bool,
                           entered: Entered, pending: seq<(nat, bool)>)
    requires block < |f.blocks|
  {
    forall s | s in f.blocks[block].successors && !EndedAlong(k, block, s, named) ::
      Subsumed(entered, s, named) || (s, named) in pending
  }

  ghost predicate Closed(f: Function, k: FloodKills, entered: Entered, pending: seq<(nat, bool)>) {
    forall block, named | 0 <= block < |f.blocks| && Leaves(f, k, entered, block, named) ::
      Followed(f, k, block, named, entered, pending)
  }

  /** The start itself is followed. */
  ghost predicate StartFollowed(f: Function, k: FloodKills, start: Start, entered: Entered, pending: seq<(nat, bool)>)
    requires ValidStart(f, start)
  {
    match start
    case OnEntry => Subsumed(entered, 0, true) || (0, true) in pending
    case PastInvoke(_, dest) => Subsumed(entered, dest, true) || (dest, true) in pending
    case AfterStart(call) =>
      RunsTo(k, call.block, call.index + 1, true, f.blocks[call.block].size) ==>
        Followed(f, k, call.block, StillNamed(k, call.block, call.index + 1, true, f.blocks[call.block].size),
                 entered, pending)
  }

  /** Everything entered or pending is a state some path of the thread is in. */
  ghost predicate EnteredArrives(f: Function, k: FloodKills, start: Start, entered: Entered) {
    forall block | block in entered :: block < |f.blocks| && Arrives(f, k, start, Position(block, 0, entered[block]))
  }

  ghost predicate PendingArrives(f: Function, k: FloodKills, start: Start, pending: seq<(nat, bool)>) {
    forall i | 0 <= i < |pending| ::
      pending[i].0 < |f.blocks| && Arrives(f, k, start, Position(pending[i].0, 0, pending[i].1))
  }

  /** Where a walk of the block from `first` ends. */
  ghost predicate EndsAt(f: Function, k: FloodKills, block: nat, first: nat, named: bool, end: Option<nat>)
    requires block < |f.blocks|
  {
    match end
    case Some(i) => first <= i < f.blocks[block].size && RunsTo(k, block, first, named, i)
                    && EndedAt(k, block, i, StillNamed(k, block, first, named, i))
    case None => RunsTo(k, block, first, named, f.blocks[block].size)
  }

  ghost predicate TopsWalked(f: Function, k: FloodKills, entered: Entered, fromTop: map<nat, Option<nat>>) {
    && fromTop.Keys == entered.Keys
    && forall block | block in entered :: block < |f.blocks| && EndsAt(f, k, block, 0, entered[block], fromTop[block])
  }

  /** The block states not entered yet, which every walk makes fewer. */
  ghost function Unentered(f: Function, entered: Entered): set<(nat, bool)> {
    set block, named | 0 <= block < |f.blocks| && named in {true, false} && !Subsumed(entered, block, named)
      :: (block, named)
  }

  /** What is known of the result of a flood. */
  ghost predicate IsFlood(f: Function, k: FloodKills, start: Start, r: Reach) {
    && f.Valid() && ValidStart(f, start) && r.start == start && r.restarts == k.restarts
    && TopsWalked(f, k, r.enteredNamed, r.fromTop)
    && EnteredArrives(f, k, start, r.enteredNamed)
    && Closed(f, k, r.enteredNamed, []) && StartFollowed(f, k, start, r.enteredNamed, [])
    && (start.AfterStart? ==> EndsAt(f, k, start.call.block, start.call.index + 1, true, r.startEnd))
  }

  /** Adds the successors the thread may go on to. */
  method Leave(f: Function, k: FloodKills, block: nat, named: bool, given: seq<(nat, bool)>, ghost start: Start)
    returns (pending: seq<(nat, bool)>)
    requires f.Valid() && block < |f.blocks| && PendingArrives(f, k, start, given)
    requires forall s | s in f.blocks[block].successors && !EndedAlong(k, block, s, named) ::
               Arrives(f, k, start, Position(s, 0, named))
    ensures given <= pending && PendingArrives(f, k, start, pending)
    ensures forall s | s in f.blocks[block].successors && !EndedAlong(k, block, s, named) :: (s, named) in pending
  {
    hide Arrives, EndedAlong;
    pending := given;
    var successors := f.blocks[block].successors;
    for i := 0 to |successors|
      invariant given <= pending && PendingArrives(f, k, start, pending)
      invariant forall j | 0 <= j < i && !EndedAlong(k, block, successors[j], named) :: (successors[j], named) in pending
    {
      if !EndedAlong(k, block, successors[i], named) {
        assert successors[i] in f.blocks[block].successors;
        pending := pending + [(successors[i], named)];
      }
    }
  }

  lemma LeavingArrives(f: Function, k: FloodKills, start: Start, block: nat, first: nat, named: bool)
    requires f.Valid() && block < |f.blocks| && first < f.blocks[block].size
    requires Arrives(f, k, start, Position(block, first, named))
    requires RunsTo(k, block, first, named, f.blocks[block].size)
    ensures var after := StillNamed(k, block, first, named, f.blocks[block].size);
            forall s | s in f.blocks[block].successors && !EndedAlong(k, block, s, after) ::
              Arrives(f, k, start, Position(s, 0, after))
  {
    hide Arrives;
    var last := f.blocks[block].size - 1;
    var after := StillNamed(k, block, first, named, last + 1);
    RunArrives(f, k, start, block, first, named, last);
    forall s | s in f.blocks[block].successors && !EndedAlong(k, block, s, after)
      ensures Arrives(f, k, start, Position(s, 0, after))
    {
      ArrivesNext(f, k, start, Position(block, last, StillNamed(k, block, first, named, last)), Position(s, 0, after));
    }
  }

  /** What is left to follow before the worklist is looked at. */
  method FloodStart(f: Function, start: Start, k: FloodKills) returns (startEnd: Option<nat>, pending: seq<(nat, bool)>)
    requires f.Valid() && ValidStart(f, start)
    ensures PendingArrives(f, k, start, pending) && StartFollowed(f, k, start, map[], pending)
    ensures start.AfterStart? ==> EndsAt(f, k, start.call.block, start.call.index + 1, true, startEnd)
  {
    hide Arrives, RunsTo, StillNamed, EndedAt, EndedAlong;
    startEnd, pending := None, [];
    ArrivesFirst(f, k, start);
    match start
    case OnEntry => pending := [(0, true)];
    case PastInvoke(_, dest) => pending := [(dest, true)];
    case AfterStart(call) =>
      var named;
      startEnd, named := WalkBlock(f, k, call.block, call.index + 1, true);
      if startEnd.None? {
        LeavingArrives(f, k, start, call.block, call.index + 1, true);
        pending := Leave(f, k, call.block, named, pending, start);
      } else {
        NotThrough(f, k, call.block, call.index + 1, true, startEnd.value);
      }
  }

  lemma NotThrough(f: Function, k: FloodKills, block: nat, first: nat, named: bool, end: nat)
    requires block < |f.blocks| && EndsAt(f, k, block, first, named, Some(end))
    ensures !RunsTo(k, block, first, named, f.blocks[block].size)
  {
    assert EndedAt(k, block, end, StillNamed(k, block, first, named, end));
  }

  /** Entering a block drops nothing that was followed. */
  lemma EnteringKeepsFollowed(f: Function, k: FloodKills, b: nat, g: bool, entered: Entered,
                              pending: seq<(nat, bool)>, block: nat, named: bool, more: seq<(nat, bool)>)
    requires b < |f.blocks| && Followed(f, k, b, g, entered, pending) && pending != []
    requires pending[|pending| - 1] == (block, named) && pending[..|pending| - 1] <= more
    requires !Subsumed(entered, block, named)
    ensures Followed(f, k, b, g, entered[block := named], more)
  {
    hide EndedAlong;
    forall s | s in f.blocks[b].successors && !EndedAlong(k, b, s, g)
      ensures Subsumed(entered[block := named], s, g) || (s, g) in more
    {
      if !Subsumed(entered, s, g) {
        KeptOrTaken(pending, more, (s, g));
      }
    }
  }

  lemma KeptOrTaken(pending: seq<(nat, bool)>, more: seq<(nat, bool)>, item: (nat, bool))
    requires pending != [] && pending[..|pending| - 1] <= more && item in pending
    ensures item in more || item == pending[|pending| - 1]
  {
    var i :| 0 <= i < |pending| && pending[i] == item;
    assert i < |pending| - 1 ==> more[i] == pending[..|pending| - 1][i];
  }

  /** One walk of the worklist: a block entered anew, or again once the handle no longer names the thread. */
  lemma StepKeepsClosed(f: Function, k: FloodKills, start: Start, entered: Entered, pending: seq<(nat, bool)>,
                        block: nat, named: bool, end: Option<nat>, namedAfter: bool, more: seq<(nat, bool)>)
    requires f.Valid() && ValidStart(f, start) && block < |f.blocks| && pending != []
    requires pending[|pending| - 1] == (block, named) && pending[..|pending| - 1] <= more
    requires !Subsumed(entered, block, named)
    requires Closed(f, k, entered, pending) && StartFollowed(f, k, start, entered, pending)
    requires EndsAt(f, k, block, 0, named, end)
    requires end.None? ==> namedAfter == StillNamed(k, block, 0, named, f.blocks[block].size)
    requires end.None? ==> Followed(f, k, block, namedAfter, map[], more)
    ensures Closed(f, k, entered[block := named], more) && StartFollowed(f, k, start, entered[block := named], more)
  {
    hide RunsTo, StillNamed, EndedAt, EndedAlong, Followed;
    var after := entered[block := named];
    forall b, g | 0 <= b < |f.blocks| && Leaves(f, k, after, b, g)
      ensures Followed(f, k, b, g, after, more)
    {
      if b == block {
        if end.Some? {
          NotThrough(f, k, block, 0, named, end.value);
        } else {
          FollowedWidens(f, k, block, namedAfter, after, more);
        }
      } else {
        assert Leaves(f, k, entered, b, g);
        EnteringKeepsFollowed(f, k, b, g, entered, pending, block, named, more);
      }
    }
    match start
    case OnEntry => if !Subsumed(entered, 0, true) { KeptOrTaken(pending, more, (0, true)); }
    case PastInvoke(_, dest) => if !Subsumed(entered, dest, true) { KeptOrTaken(pending, more, (dest, true)); }
    case AfterStart(call) =>
      if RunsTo(k, call.block, call.index + 1, true, f.blocks[call.block].size) {
        EnteringKeepsFollowed(f, k, call.block,
                              StillNamed(k, call.block, call.index + 1, true, f.blocks[call.block].size),
                              entered, pending, block, named, more);
      }
  }

  lemma FollowedWidens(f: Function, k: FloodKills, block: nat, named: bool, entered: Entered, pending: seq<(nat, bool)>)
    requires block < |f.blocks| && Followed(f, k, block, named, map[], pending)
    ensures Followed(f, k, block, named, entered, pending)
  {
  }

  /** What waits is dropped only when a state at least as long-lived was entered. */
  lemma SkipKeepsFollowed(f: Function, k: FloodKills, b: nat, g: bool, entered: Entered, pending: seq<(nat, bool)>)
    requires b < |f.blocks| && Followed(f, k, b, g, entered, pending) && pending != []
    requires Subsumed(entered, pending[|pending| - 1].0, pending[|pending| - 1].1)
    ensures Followed(f, k, b, g, entered, pending[..|pending| - 1])
  {
    forall s | s in f.blocks[b].successors && !EndedAlong(k, b, s, g)
      ensures Subsumed(entered, s, g) || (s, g) in pending[..|pending| - 1]
    {
      if !Subsumed(entered, s, g) {
        KeptOrTaken(pending, pending[..|pending| - 1], (s, g));
      }
    }
  }

  lemma SkipKeepsClosed(f: Function, k: FloodKills, start: Start, entered: Entered, pending: seq<(nat, bool)>)
    requires ValidStart(f, start) && pending != []
    requires Subsumed(entered, pending[|pending| - 1].0, pending[|pending| - 1].1)
    requires Closed(f, k, entered, pending) && StartFollowed(f, k, start, entered, pending)
    ensures Closed(f, k, entered, pending[..|pending| - 1])
    ensures StartFollowed(f, k, start, entered, pending[..|pending| - 1])
  {
    hide RunsTo, StillNamed, Followed;
    var less := pending[..|pending| - 1];
    forall b, g | 0 <= b < |f.blocks| && Leaves(f, k, entered, b, g)
      ensures Followed(f, k, b, g, entered, less)
    {
      SkipKeepsFollowed(f, k, b, g, entered, pending);
    }
    match start
    case OnEntry => if !Subsumed(entered, 0, true) { KeptOrTaken(pending, less, (0, true)); }
    case PastInvoke(_, dest) => if !Subsumed(entered, dest, true) { KeptOrTaken(pending, less, (dest, true)); }
    case AfterStart(call) =>
      if RunsTo(k, call.block, call.index + 1, true, f.blocks[call.block].size) {
        SkipKeepsFollowed(f, k, call.block,
                          StillNamed(k, call.block, call.index + 1, true, f.blocks[call.block].size), entered, pending);
      }
  }

  lemma EnteringLeavesFewer(f: Function, entered: Entered, block: nat, named: bool)
    requires block < |f.blocks| && !Subsumed(entered, block, named)
    ensures Unentered(f, entered[block := named]) < Unentered(f, entered)
  {
    assert (block, named) in Unentered(f, entered);
  }

  /** One forward flood over the blocks of `f`. `walks` counts how often each block is walked from its top. */
  method Flood(f: Function, start: Start, k: FloodKills) returns (r: Reach, ghost walks: multiset<nat>)
    requires f.Valid() && ValidStart(f, start)
    ensures IsFlood(f, k, start, r)
    ensures forall block :: walks[block] <= 2
  {
    hide Arrives, RunsTo, StillNamed, EndedAt, EndedAlong, Followed, StartFollowed, Closed, EnteredArrives,
         PendingArrives, TopsWalked, Unentered;
    var startEnd, pending := FloodStart(f, start, k);
    var entered: Entered, fromTop: map<nat, Option<nat>> := map[], map[];
    walks := multiset{};
    NothingEntered(f, k, start, pending);
    while pending != []
      invariant TopsWalked(f, k, entered, fromTop) && EnteredArrives(f, k, start, entered)
      invariant PendingArrives(f, k, start, pending)
      invariant Closed(f, k, entered, pending) && StartFollowed(f, k, start, entered, pending)
      invariant forall block :: walks[block] <= if block !in entered then 0 else if entered[block] then 1 else 2
      decreases Unentered(f, entered), |pending|
    {
      var (block, named) := pending[|pending| - 1];
      var rest := pending[..|pending| - 1];
      LastArrives(f, k, start, pending);
      if Subsumed(entered, block, named) {
        SkipKeepsClosed(f, k, start, entered, pending);
        pending := rest;
        continue;
      }
      EnteringLeavesFewer(f, entered, block, named);
      var end, namedAfter := WalkBlock(f, k, block, 0, named);
      var more := rest;
      if end.None? {
        LeavingArrives(f, k, start, block, 0, named);
        more := Leave(f, k, block, namedAfter, rest, start);
        LeftFollowed(f, k, block, namedAfter, more);
      }
      StepKeepsClosed(f, k, start, entered, pending, block, named, end, namedAfter, more);
      EntryKept(f, k, start, entered, fromTop, block, named, end);
      walks := walks + multiset{block};
      entered, fromTop, pending := entered[block := named], fromTop[block := end], more;
    }
    r := Reach(fromTop, entered, start, startEnd, k.restarts);
  }

  lemma NothingEntered(f: Function, k: FloodKills, start: Start, pending: seq<(nat, bool)>)
    ensures TopsWalked(f, k, map[], map[]) && EnteredArrives(f, k, start, map[]) && Closed(f, k, map[], pending)
  {
  }

  lemma LastArrives(f: Function, k: FloodKills, start: Start, pending: seq<(nat, bool)>)
    requires PendingArrives(f, k, start, pending) && pending != [] && f.Valid()
    ensures var (block, named) := pending[|pending| - 1];
            block < |f.blocks| && 0 < f.blocks[block].size && Arrives(f, k, start, Position(block, 0, named))
    ensures PendingArrives(f, k, start, pending[..|pending| - 1])
  {
    hide Arrives;
  }

  lemma LeftFollowed(f: Function, k: FloodKills, block: nat, named: bool, more: seq<(nat, bool)>)
    requires block < |f.blocks|
    requires forall s | s in f.blocks[block].successors && !EndedAlong(k, block, s, named) :: (s, named) in more
    ensures Followed(f, k, block, named, map[], more)
  {
  }

  lemma EntryKept(f: Function, k: FloodKills, start: Start, entered: Entered, fromTop: map<nat, Option<nat>>,
                  block: nat, named: bool, end: Option<nat>)
    requires TopsWalked(f, k, entered, fromTop) && EnteredArrives(f, k, start, entered) && block < |f.blocks|
    requires EndsAt(f, k, block, 0, named, end) && Arrives(f, k, start, Position(block, 0, named))
    ensures TopsWalked(f, k, entered[block := named], fromTop[block := end])
    ensures EnteredArrives(f, k, start, entered[block := named])
  {
    hide Arrives, EndsAt;
  }

  // ----- the flood is exact --------------------------------------------------------------------------

  lemma EndIsFirst(f: Function, k: FloodKills, block: nat, first: nat, named: bool, end: Option<nat>, i: nat)
    requires block < |f.blocks| && first <= i < f.blocks[block].size && EndsAt(f, k, block, first, named, end)
    ensures (end.None? || i < end.value) <==> RunsTo(k, block, first, named, i + 1)
  {
    if end.Some? && end.value <= i {
      assert EndedAt(k, block, end.value, StillNamed(k, block, first, named, end.value));
    }
  }

  /** The position is on a run from a block entered from its top, in a state that runs at least as far. */
  ghost predicate OnTopRun(k: FloodKills, entered: Entered, p: Position) {
    && p.block in entered && RunsTo(k, p.block, 0, entered[p.block], p.index)
    && (StillNamed(k, p.block, 0, entered[p.block], p.index) ==> p.named)
  }

  /** The position is on the run that follows the start in its own block. */
  ghost predicate OnStartRun(k: FloodKills, start: Start, p: Position) {
    && start.AfterStart? && p.block == start.call.block && start.call.index < p.index
    && RunsTo(k, p.block, start.call.index + 1, true, p.index)
    && p.named == StillNamed(k, p.block, start.call.index + 1, true, p.index)
  }

  lemma SubsumedIsTopRun(k: FloodKills, entered: Entered, block: nat, named: bool)
    requires Subsumed(entered, block, named)
    ensures OnTopRun(k, entered, Position(block, 0, named))
  {
  }

  /** One move keeps a thread on the runs the flood followed. */
  lemma MoveStaysOnTopRun(f: Function, k: FloodKills, start: Start, r: Reach, a: Position, b: Position)
    requires IsFlood(f, k, start, r) && Moves(f, k, a, b) && OnTopRun(k, r.enteredNamed, a)
    ensures OnTopRun(k, r.enteredNamed, b)
  {
    hide Arrives, EnteredArrives, TopsWalked, StartFollowed;
    var top := r.enteredNamed[a.block];
    assert RunsTo(k, a.block, 0, top, a.index + 1);
    if a.index + 1 == f.blocks[a.block].size {
      var g := StillNamed(k, a.block, 0, top, a.index + 1);
      assert Leaves(f, k, r.enteredNamed, a.block, g);
      assert Followed(f, k, a.block, g, r.enteredNamed, []);
      assert !EndedAlong(k, a.block, b.block, g);
      SubsumedIsTopRun(k, r.enteredNamed, b.block, g);
    }
  }

  lemma MoveStaysOnStartRun(f: Function, k: FloodKills, start: Start, r: Reach, a: Position, b: Position)
    requires IsFlood(f, k, start, r) && Moves(f, k, a, b) && OnStartRun(k, start, a)
    ensures OnTopRun(k, r.enteredNamed, b) || OnStartRun(k, start, b)
  {
    hide Arrives, EnteredArrives, TopsWalked, Closed;
    var first := start.call.index + 1;
    assert RunsTo(k, a.block, first, true, a.index + 1);
    var g := StillNamed(k, a.block, first, true, a.index + 1);
    if a.index + 1 == f.blocks[a.block].size {
      assert Followed(f, k, a.block, g, r.enteredNamed, []);
      SubsumedIsTopRun(k, r.enteredNamed, b.block, g);
    }
  }

  lemma {:induction false} PathsStayOnRuns(f: Function, k: FloodKills, start: Start, r: Reach, path: seq<Position>)
    requires IsFlood(f, k, start, r) && IsPath(f, k, start, path)
    ensures OnTopRun(k, r.enteredNamed, path[|path| - 1]) || OnStartRun(k, start, path[|path| - 1])
    decreases |path|
  {
    hide IsFlood, Moves, OnTopRun, OnStartRun;
    var last := path[|path| - 1];
    if |path| == 1 {
      FirstOnRun(f, k, start, r);
    } else {
      var before := path[|path| - 2];
      assert Moves(f, k, before, last);
      PathsStayOnRuns(f, k, start, r, path[..|path| - 1]);
      if OnTopRun(k, r.enteredNamed, before) {
        MoveStaysOnTopRun(f, k, start, r, before, last);
      } else {
        MoveStaysOnStartRun(f, k, start, r, before, last);
      }
    }
  }

  lemma FirstOnRun(f: Function, k: FloodKills, start: Start, r: Reach)
    requires IsFlood(f, k, start, r)
    ensures OnTopRun(k, r.enteredNamed, FirstPosition(start)) || OnStartRun(k, start, FirstPosition(start))
  {
    hide Arrives, EnteredArrives, TopsWalked, Closed;
  }

  /** Soundness of both answers: a point on a run the flood followed is one a running thread is at. */
  lemma RunIsReal(f: Function, k: FloodKills, start: Start, r: Reach, p: Point)
    requires IsFlood(f, k, start, r) && f.Contains(p)
    ensures r.FromTop(p) ==> RunsAt(f, k, start, p, StillNamed(k, p.block, 0, r.enteredNamed[p.block], p.index))
    ensures r.FromStart(p) ==> RunsAt(f, k, start, p, StillNamed(k, p.block, start.call.index + 1, true, p.index))
  {
    hide Arrives, Closed, StartFollowed;
    if r.FromTop(p) {
      var top := r.enteredNamed[p.block];
      EndIsFirst(f, k, p.block, 0, top, r.fromTop[p.block], p.index);
      RunArrives(f, k, start, p.block, 0, top, p.index);
    }
    if r.FromStart(p) {
      EndIsFirst(f, k, p.block, start.call.index + 1, true, r.startEnd, p.index);
      ArrivesFirst(f, k, start);
      RunArrives(f, k, start, p.block, start.call.index + 1, true, p.index);
    }
  }

  /** Completeness: where a thread runs, the flood followed it, in a state that is named only if the thread is. */
  lemma RunningIsFollowed(f: Function, k: FloodKills, start: Start, r: Reach, p: Point, named: bool)
    requires IsFlood(f, k, start, r) && f.Contains(p) && RunsAt(f, k, start, p, named)
    ensures || (r.FromTop(p) && (StillNamed(k, p.block, 0, r.enteredNamed[p.block], p.index) ==> named))
            || (r.FromStart(p) && named == StillNamed(k, p.block, start.call.index + 1, true, p.index))
  {
    hide Closed, StartFollowed, EnteredArrives;
    var path :| IsPath(f, k, start, path) && path[|path| - 1] == Position(p.block, p.index, named);
    PathsStayOnRuns(f, k, start, r, path);
    if OnTopRun(k, r.enteredNamed, path[|path| - 1]) {
      var top := r.enteredNamed[p.block];
      assert RunsTo(k, p.block, 0, top, p.index + 1);
      EndIsFirst(f, k, p.block, 0, top, r.fromTop[p.block], p.index);
    } else {
      assert RunsTo(k, p.block, start.call.index + 1, true, p.index + 1);
      EndIsFirst(f, k, p.block, start.call.index + 1, true, r.startEnd, p.index);
    }
  }

  /** The flood contains a point exactly when some path from the start still has the thread running there. */
  lemma ContainsIsExact(f: Function, k: FloodKills, start: Start, r: Reach, p: Point)
    requires IsFlood(f, k, start, r) && f.Contains(p)
    ensures r.Contains(p) <==> exists named :: RunsAt(f, k, start, p, named)
  {
    hide IsFlood, RunsAt, StillNamed;
    RunIsReal(f, k, start, r, p);
    if named :| RunsAt(f, k, start, p, named) {
      RunningIsFollowed(f, k, start, r, p, named);
    }
  }

  lemma FloodShape(f: Function, k: FloodKills, start: Start, r: Reach)
    requires IsFlood(f, k, start, r)
    ensures r.restarts == k.restarts && r.start == start && r.fromTop.Keys == r.enteredNamed.Keys
  {
  }

  /** The handle is said to hold the thread at a point exactly when the thread may run there and no path on which it
      still does has refilled the handle. */
  lemma NamedAtIsExact(f: Function, k: FloodKills, start: Start, r: Reach, p: Point)
    requires IsFlood(f, k, start, r) && f.Contains(p)
    ensures p.block in r.fromTop ==> p.block in r.enteredNamed
    ensures (r.Contains(p) && SaysNamed(r, p)) <==>
              (exists named :: RunsAt(f, k, start, p, named)) && !RunsAt(f, k, start, p, false)
  {
    hide IsFlood, RunsAt;
    FloodShape(f, k, start, r);
    ContainsIsExact(f, k, start, r, p);
    RunIsReal(f, k, start, r, p);
    if RunsAt(f, k, start, p, false) {
      RunningIsFollowed(f, k, start, r, p, false);
    }
  }

  // ----- the same, said of the instructions run ------------------------------------------------------

  ghost predicate RunsOnTo(f: Function, p: Point, q: Point) {
    && p.block < |f.blocks| && p.index < f.blocks[p.block].size
    && if p.index + 1 < f.blocks[p.block].size then q.block == p.block && q.index == p.index + 1
       else q.index == 0 && q.block in f.blocks[p.block].successors
  }

  /** Where the thread is first alive. */
  ghost predicate IsFirst(start: Start, p: Point) {
    match start
    case OnEntry => p == Point(0, 0)
    case AfterStart(call) => p.block == call.block && p.index == call.index + 1
    case PastInvoke(_, dest) => p == Point(dest, 0)
  }

  ghost predicate IsTrace(f: Function, start: Start, trace: seq<Point>) {
    trace != [] && IsFirst(start, trace[0]) && forall i | 0 < i < |trace| :: RunsOnTo(f, trace[i - 1], trace[i])
  }

  /** Nothing the trace ran before position `i` has filled the handle again. */
  ghost predicate NotRefilled(k: FloodKills, trace: seq<Point>, i: nat) {
    forall m: nat | m < i && m < |trace| :: trace[m] !in k.restarts
  }

  /** At position `i` the thread is ended: at the instruction, or by the edge that led to it; a kill by handle counts only
      while the handle is not refilled. */
  ghost predicate EndsOnTrace(k: FloodKills, trace: seq<Point>, i: nat) {
    && i < |trace|
    && (|| trace[i] in k.always.from
        || (trace[i] in k.byHandle.from && NotRefilled(k, trace, i))
        || (i > 0 && trace[i].index == 0 && (trace[i - 1].block, trace[i].block) in k.always.edges)
        || (i > 0 && trace[i].index == 0 && (trace[i - 1].block, trace[i].block) in k.byHandle.edges
            && NotRefilled(k, trace, i)))
  }

  /** The thread is alive all along a trace that ends at `p`. */
  ghost predicate AliveTo(f: Function, k: FloodKills, start: Start, trace: seq<Point>, p: Point) {
    IsTrace(f, start, trace) && trace[|trace| - 1] == p && forall i: nat :: !EndsOnTrace(k, trace, i)
  }

  ghost function PointsOf(path: seq<Position>): seq<Point> {
    seq(|path|, i requires 0 <= i < |path| => Point(path[i].block, path[i].index))
  }

  lemma {:induction false} PathNames(f: Function, k: FloodKills, start: Start, path: seq<Position>, i: nat)
    requires IsPath(f, k, start, path) && i < |path|
    ensures path[i].named <==> NotRefilled(k, PointsOf(path), i)
  {
    if i > 0 {
      PathNames(f, k, start, path, i - 1);
      assert Moves(f, k, path[i - 1], path[i]);
      var trace := PointsOf(path);
      assert trace[i - 1] == Point(path[i - 1].block, path[i - 1].index);
      assert NotRefilled(k, trace, i) <==> NotRefilled(k, trace, i - 1) && trace[i - 1] !in k.restarts;
    }
  }

  lemma PathStepRuns(f: Function, k: FloodKills, start: Start, path: seq<Position>, i: nat)
    requires IsPath(f, k, start, path) && 0 < i < |path|
    ensures RunsOnTo(f, PointsOf(path)[i - 1], PointsOf(path)[i])
    ensures i < |path| - 1 || !EndedAt(k, path[i].block, path[i].index, path[i].named) ==> !EndsOnTrace(k, PointsOf(path), i)
  {
    assert Moves(f, k, path[i - 1], path[i]);
    PathNames(f, k, start, path, i);
    if i < |path| - 1 {
      assert Moves(f, k, path[i], path[i + 1]);
    }
  }

  lemma FirstIsAlive(f: Function, k: FloodKills, start: Start, path: seq<Position>)
    requires IsPath(f, k, start, path)
    requires |path| > 1 || !EndedAt(k, path[0].block, path[0].index, path[0].named)
    ensures IsFirst(start, PointsOf(path)[0]) && !EndsOnTrace(k, PointsOf(path), 0)
  {
    PathNames(f, k, start, path, 0);
    if |path| > 1 {
      assert Moves(f, k, path[0], path[1]);
    }
  }

  /** A path of the running thread is a trace along which it is alive. */
  lemma PathIsAlive(f: Function, k: FloodKills, start: Start, path: seq<Position>, p: Point)
    requires IsPath(f, k, start, path) && path[|path| - 1].block == p.block && path[|path| - 1].index == p.index
    requires !EndedAt(k, p.block, p.index, path[|path| - 1].named)
    ensures AliveTo(f, k, start, PointsOf(path), p)
    ensures path[|path| - 1].named <==> NotRefilled(k, PointsOf(path), |path| - 1)
  {
    hide Moves, EndsOnTrace, RunsOnTo, IsFirst;
    PathNames(f, k, start, path, |path| - 1);
    FirstIsAlive(f, k, start, path);
    var trace := PointsOf(path);
    forall i | 0 < i < |trace|
      ensures RunsOnTo(f, trace[i - 1], trace[i])
    {
      PathStepRuns(f, k, start, path, i);
    }
    forall i: nat
      ensures !EndsOnTrace(k, trace, i)
    {
      if 0 < i < |trace| {
        PathStepRuns(f, k, start, path, i);
      } else if i >= |trace| {
        NotPastEnd(k, trace, i);
      }
    }
  }

  lemma NotPastEnd(k: FloodKills, trace: seq<Point>, i: nat)
    requires i >= |trace|
    ensures !EndsOnTrace(k, trace, i)
  {
  }

  ghost function PathOf(k: FloodKills, trace: seq<Point>): seq<Position> {
    seq(|trace|, i requires 0 <= i < |trace| => Position(trace[i].block, trace[i].index, NotRefilled(k, trace, i)))
  }

  lemma TraceStepMoves(f: Function, k: FloodKills, start: Start, trace: seq<Point>, p: Point, i: nat)
    requires AliveTo(f, k, start, trace, p) && 0 < i < |trace|
    ensures Moves(f, k, PathOf(k, trace)[i - 1], PathOf(k, trace)[i])
  {
    assert RunsOnTo(f, trace[i - 1], trace[i]);
    assert !EndsOnTrace(k, trace, i - 1) && !EndsOnTrace(k, trace, i);
    assert NotRefilled(k, trace, i) <==> NotRefilled(k, trace, i - 1) && trace[i - 1] !in k.restarts;
  }

  lemma AliveIsPath(f: Function, k: FloodKills, start: Start, trace: seq<Point>, p: Point)
    requires AliveTo(f, k, start, trace, p)
    ensures RunsAt(f, k, start, p, NotRefilled(k, trace, |trace| - 1))
  {
    var path := PathOf(k, trace);
    assert path[0] == FirstPosition(start) by {
      assert NotRefilled(k, trace, 0);
    }
    assert !EndsOnTrace(k, trace, |trace| - 1);
    assert !EndedAt(k, p.block, p.index, NotRefilled(k, trace, |trace| - 1));
    hide Moves, EndsOnTrace, AliveTo;
    forall i | 0 < i < |path|
      ensures Moves(f, k, path[i - 1], path[i])
    {
      TraceStepMoves(f, k, start, trace, p, i);
    }
    assert IsPath(f, k, start, path);
    assert path[|path| - 1] == Position(p.block, p.index, NotRefilled(k, trace, |trace| - 1));
  }

  /** The thread runs at `p`, in its handle or no longer, exactly when it is alive along some trace to `p` that has not, or
      has, refilled the handle. */
  lemma RunsAtIff(f: Function, k: FloodKills, start: Start, p: Point, named: bool)
    ensures RunsAt(f, k, start, p, named)
       <==> exists trace :: AliveTo(f, k, start, trace, p) && (named <==> NotRefilled(k, trace, |trace| - 1))
  {
    hide Moves, EndsOnTrace, RunsOnTo, IsFirst, NotRefilled, EndedAt;
    if RunsAt(f, k, start, p, named) {
      var path :| IsPath(f, k, start, path) && path[|path| - 1] == Position(p.block, p.index, named);
      PathIsAlive(f, k, start, path, p);
    }
    if trace :| AliveTo(f, k, start, trace, p) && (named <==> NotRefilled(k, trace, |trace| - 1)) {
      AliveIsPath(f, k, start, trace, p);
    }
  }

  /** What the flood answers, in terms of the instructions run: a point is contained exactly when the thread is alive along
      some trace to it, and named there exactly when no such trace refills the handle. */
  lemma FloodSaysOfTraces(f: Function, k: FloodKills, start: Start, r: Reach, p: Point)
    requires IsFlood(f, k, start, r) && f.Contains(p)
    ensures p.block in r.fromTop ==> p.block in r.enteredNamed
    ensures r.Contains(p) <==> exists trace :: AliveTo(f, k, start, trace, p)
    ensures (r.Contains(p) && SaysNamed(r, p))
       <==> && (exists trace :: AliveTo(f, k, start, trace, p))
            && forall trace | AliveTo(f, k, start, trace, p) :: NotRefilled(k, trace, |trace| - 1)
  {
    hide IsFlood, RunsAt, AliveTo, NotRefilled, Reach.Contains;
    ContainsIsExact(f, k, start, r, p);
    NamedAtIsExact(f, k, start, r, p);
    RunsAtIff(f, k, start, p, true);
    RunsAtIff(f, k, start, p, false);
  }
}
