/** Threads taking exclusive locks, and what the lock-order report says about the states they reach. */
module LockMachine {
  import opened Facts
  import opened LockCycles
  import opened CycleSearch
  import opened LockOrderAnalyzer

  datatype Task = RootTask | EntryTask(id: string)

  /** A blocked acquisition: the lock awaited, and the order fact that stands for each lock its thread holds. */
  datatype Wait = Wait(lock: string, orders: map<string, LockOrderFact>)

  datatype State = State(tasks: map<nat, Task>, owner: map<string, nat>, waits: map<nat, Wait>)

  /** The facts collected about a program, and where a run of it lays its locks out. */
  datatype Program = Program(orders: seq<LockOrderFact>, facts: EntryFacts, address: string -> int)

  ghost function Held(s: State, t: nat): set<string> {
    set lock | lock in s.owner && s.owner[lock] == t
  }

  ghost predicate RunsAt(p: Program, task: Task, order: LockOrderFact) {
    match task
    case RootTask => order.inRootTask
    case EntryTask(e) => e in p.facts.EntriesOf(order.functionId)
  }

  /** `order` describes thread `t` asking for `lock` while holding `held`: the locks it lists are held, the
      function is one its task reaches, and the address order is that of the layout. */
  ghost predicate Describes(p: Program, s: State, t: nat, held: string, lock: string, order: LockOrderFact) {
    && order in p.orders && order.firstLockId == held && order.secondLockId == lock
    && order.heldLocks <= Held(s, t)
    && t in s.tasks && RunsAt(p, s.tasks[t], order)
    && (order.lowerAddressFirst ==> p.address(held) < p.address(lock))
  }

  ghost predicate DescribesWait(p: Program, s: State, t: nat, w: Wait) {
    && w.orders.Keys == Held(s, t)
    && forall held | held in w.orders :: Describes(p, s, t, held, w.lock, w.orders[held])
  }

  /** Two tasks alive at once are a pair the facts leave overlapping. */
  ghost predicate MayCoexist(p: Program, a: Task, b: Task) {
    match (a, b)
    case (RootTask, RootTask) => false
    case (EntryTask(x), EntryTask(y)) =>
      if x == y then p.facts.IsSelfConcurrentEntry(x) else MakeEntryPair(x, y) !in p.facts.sequencedEntryPairs
    case _ => true
  }

  ghost predicate ListsLive(order: LockOrderFact, task: Task) {
    task.EntryTask? ==> task.id in order.liveEntries
  }

  /** What the facts claim about threads running together holds of the state. */
  ghost predicate Coherent(p: Program, s: State) {
    && (forall t, u | t in s.tasks && u in s.tasks && t != u :: MayCoexist(p, s.tasks[t], s.tasks[u]))
    && (forall t, u, held | t in s.waits && u in s.tasks && t in s.tasks && s.tasks[t].RootTask?
                            && held in s.waits[t].orders :: ListsLive(s.waits[t].orders[held], s.tasks[u]))
  }

  datatype Step =
    | Start(t: nat, task: Task)
    | Exit(t: nat)
    | Request(t: nat, w: Wait)
    | Grant(t: nat)
    | TryLock(t: nat, lock: string)
    | Release(t: nat, lock: string)

  ghost predicate Takes(p: Program, s: State, step: Step, s': State) {
    match step
    case Start(t, task) => t !in s.tasks && s' == s.(tasks := s.tasks[t := task])
    case Exit(t) => t in s.tasks && t !in s.waits && Held(s, t) == {} && s' == s.(tasks := s.tasks - {t})
    case Request(t, w) =>
      t in s.tasks && t !in s.waits && DescribesWait(p, s, t, w) && s' == s.(waits := s.waits[t := w])
    case Grant(t) =>
      && t in s.waits && s.waits[t].lock !in s.owner
      && s' == s.(owner := s.owner[s.waits[t].lock := t], waits := s.waits - {t})
    case TryLock(t, lock) =>
      t in s.tasks && t !in s.waits && lock !in s.owner && s' == s.(owner := s.owner[lock := t])
    case Release(t, lock) =>
      t !in s.waits && lock in s.owner && s.owner[lock] == t && s' == s.(owner := s.owner - {lock})
  }

  ghost predicate Steps(p: Program, s: State, s': State) {
    exists step :: Takes(p, s, step, s')
  }

  ghost predicate IsRun(p: Program, run: seq<State>) {
    && run != [] && run[0].owner == map[] && run[0].waits == map[]
    && (forall i | 0 <= i < |run| :: Coherent(p, run[i]))
    && (forall i | 0 < i < |run| :: Steps(p, run[i - 1], run[i]))
  }

  // ----- what every step keeps -----------------------------------------------------------------

  /** Each waiting thread still holds what it held when it asked, and its orders still describe it. */
  ghost predicate WaitsDescribed(p: Program, s: State) {
    forall t | t in s.waits :: DescribesWait(p, s, t, s.waits[t])
  }

  lemma SameHeldDescribes(p: Program, s: State, s': State, t: nat, w: Wait)
    requires DescribesWait(p, s, t, w) && Held(s, t) == Held(s', t)
    requires t in s.tasks ==> t in s'.tasks && s'.tasks[t] == s.tasks[t]
    ensures DescribesWait(p, s', t, w)
  {
    hide Held, RunsAt;
  }

  lemma StepKeepsDescribed(p: Program, s: State, step: Step, s': State)
    requires WaitsDescribed(p, s) && Takes(p, s, step, s')
    ensures WaitsDescribed(p, s')
  {
    hide DescribesWait;
    forall t | t in s'.waits
      ensures DescribesWait(p, s', t, s'.waits[t])
    {
      assert Held(s, t) == Held(s', t);
      SameHeldDescribes(p, s, s', t, s'.waits[t]);
    }
  }

  lemma {:induction false} RunKeepsDescribed(p: Program, run: seq<State>)
    requires IsRun(p, run)
    ensures WaitsDescribed(p, run[|run| - 1])
    decreases |run|
  {
    if |run| > 1 {
      var before := run[..|run| - 1];
      RunKeepsDescribed(p, before);
      assert Steps(p, run[|run| - 2], run[|run| - 1]);
      var step :| Takes(p, run[|run| - 2], step, run[|run| - 1]);
      StepKeepsDescribed(p, run[|run| - 2], step, run[|run| - 1]);
    }
  }

  // ----- a thread that waits for itself --------------------------------------------------------

  /** In every state a run reaches in which a thread waits for a lock it owns itself, and the lock may not be taken
      again, the report lists an order on that lock. */
  lemma SelfWaitReported(p: Program, report: Report, recursiveLockIds: set<string>, run: seq<State>, t: nat)
    requires ListsSelfDeadlocks(report, p.orders, recursiveLockIds) && IsRun(p, run)
    requires t in run[|run| - 1].waits && run[|run| - 1].waits[t].lock !in recursiveLockIds
    requires run[|run| - 1].waits[t].lock in run[|run| - 1].owner
    requires run[|run| - 1].owner[run[|run| - 1].waits[t].lock] == t
    ensures exists order :: order in report.selfDeadlocks
                            && order.firstLockId == order.secondLockId == run[|run| - 1].waits[t].lock
  {
    var s := run[|run| - 1];
    RunKeepsDescribed(p, run);
    var lock := s.waits[t].lock;
    assert DescribesWait(p, s, t, s.waits[t]) && lock in Held(s, t);
    var order := s.waits[t].orders[lock];
    assert Describes(p, s, t, lock, lock, order);
    assert order in multiset(p.orders);
    assert order in multiset(report.selfDeadlocks);
  }

  /** Conversely, every order listed is one collected, on one lock, which may not be taken again. */
  lemma ListedIsSelfDeadlock(p: Program, report: Report, recursiveLockIds: set<string>, order: LockOrderFact)
    requires ListsSelfDeadlocks(report, p.orders, recursiveLockIds) && order in report.selfDeadlocks
    ensures order in p.orders && order.firstLockId == order.secondLockId && order.secondLockId !in recursiveLockIds
  {
    assert order in multiset(report.selfDeadlocks);
    assert order in multiset(p.orders);
  }

  // ----- circular waits ------------------------------------------------------------------------

  function After(n: nat, i: nat): nat
    requires i < n
  {
    if i + 1 == n then 0 else i + 1
  }

  function Before(n: nat, i: nat): nat
    requires i < n
  {
    if i == 0 then n - 1 else i - 1
  }

  /** Distinct threads, each waiting for a lock the next one owns. */
  ghost predicate CircularWait(s: State, ts: seq<nat>) {
    && |ts| >= 2
    && (forall i, j | 0 <= i < j < |ts| :: ts[i] != ts[j])
    && (forall i | 0 <= i < |ts| :: ts[i] in s.waits)
    && (forall i | 0 <= i < |ts| ::
          s.waits[ts[i]].lock in s.owner && s.owner[s.waits[ts[i]].lock] == ts[After(|ts|, i)])
  }

  /** The lock thread `i` waits for, and the one it keeps the thread before it waiting for. */
  ghost function Awaited(s: State, ts: seq<nat>, i: nat): string
    requires CircularWait(s, ts) && i < |ts|
  {
    s.waits[ts[i]].lock
  }

  ghost function Kept(s: State, ts: seq<nat>, i: nat): string
    requires CircularWait(s, ts) && i < |ts|
  {
    Awaited(s, ts, Before(|ts|, i))
  }

  /** The lock edges of a circular wait: each thread's held lock to the lock it waits for. */
  ghost function WaitEdges(s: State, ts: seq<nat>): CycleKey
    requires CircularWait(s, ts)
  {
    set i | 0 <= i < |ts| :: (Kept(s, ts, i), Awaited(s, ts, i))
  }

  lemma KeptIsOwned(s: State, ts: seq<nat>, i: nat)
    requires CircularWait(s, ts) && i < |ts|
    ensures Kept(s, ts, i) in s.owner && s.owner[Kept(s, ts, i)] == ts[i]
  {
    assert After(|ts|, Before(|ts|, i)) == i;
  }

  ghost function OrderOf(p: Program, s: State, ts: seq<nat>, i: nat): (order: LockOrderFact)
    requires CircularWait(s, ts) && WaitsDescribed(p, s) && i < |ts|
    ensures Describes(p, s, ts[i], Kept(s, ts, i), Awaited(s, ts, i), order)
  {
    KeptIsOwned(s, ts, i);
    assert DescribesWait(p, s, ts[i], s.waits[ts[i]]);
    s.waits[ts[i]].orders[Kept(s, ts, i)]
  }

  ghost function ChoiceOf(p: Program, s: State, ts: seq<nat>): (c: Cycle)
    requires CircularWait(s, ts) && WaitsDescribed(p, s)
    ensures |c| == |ts| && forall i | 0 <= i < |ts| :: c[i] == OrderOf(p, s, ts, i)
  {
    seq(|ts|, i requires 0 <= i < |ts| => OrderOf(p, s, ts, i))
  }

  lemma ChoiceLocks(p: Program, s: State, ts: seq<nat>, i: nat)
    requires CircularWait(s, ts) && WaitsDescribed(p, s) && i < |ts|
    ensures var c := ChoiceOf(p, s, ts);
            && c[i].firstLockId == Kept(s, ts, i) && c[i].secondLockId == Awaited(s, ts, i)
            && c[i].firstLockId in s.owner && s.owner[c[i].firstLockId] == ts[i]
            && c[i].heldLocks <= Held(s, ts[i])
            && (c[i].lowerAddressFirst ==> p.address(Kept(s, ts, i)) < p.address(Awaited(s, ts, i)))
            && c[i] in p.orders && ts[i] in s.tasks && RunsAt(p, s.tasks[ts[i]], c[i])
  {
    KeptIsOwned(s, ts, i);
  }

  lemma ChoiceIsCycle(p: Program, s: State, ts: seq<nat>)
    requires CircularWait(s, ts) && WaitsDescribed(p, s)
    ensures IsCycle(ChoiceOf(p, s, ts))
  {
    hide CircularWait, WaitsDescribed, ChoiceOf, OrderOf;
    var c := ChoiceOf(p, s, ts);
    WaitersApart(s, ts);
    forall i | 0 <= i < |c|
      ensures c[i].secondLockId == c[Next(c, i)].firstLockId
    {
      ChoiceLocks(p, s, ts, i);
      ChoiceLocks(p, s, ts, Next(c, i));
      assert Before(|ts|, Next(c, i)) == i;
    }
    forall i, j | 0 <= i < j < |c|
      ensures c[i].firstLockId != c[j].firstLockId
    {
      ChoiceLocks(p, s, ts, i);
      ChoiceLocks(p, s, ts, j);
    }
  }

  lemma WaitersApart(s: State, ts: seq<nat>)
    requires CircularWait(s, ts)
    ensures |ts| >= 2 && forall i, j | 0 <= i < j < |ts| :: ts[i] != ts[j]
  {
  }

  /** The two threads at a pair of orders are alive together, so the facts let the orders overlap. */
  lemma DescribedInParallel(p: Program, s: State, t: nat, u: nat, a: LockOrderFact, b: LockOrderFact,
                            x: string, y: string)
    requires Coherent(p, s) && t != u && t in s.waits && u in s.waits && t in s.tasks && u in s.tasks
    requires x in s.waits[t].orders && a == s.waits[t].orders[x] && y in s.waits[u].orders && b == s.waits[u].orders[y]
    requires RunsAt(p, s.tasks[t], a) && RunsAt(p, s.tasks[u], b)
    ensures InParallel(a, b, p.facts)
  {
    assert MayCoexist(p, s.tasks[t], s.tasks[u]);
    assert s.tasks[t].RootTask? ==> ListsLive(s.waits[t].orders[x], s.tasks[u]);
    assert s.tasks[u].RootTask? ==> ListsLive(s.waits[u].orders[y], s.tasks[t]);
    if s.tasks[t].EntryTask? && s.tasks[u].EntryTask? {
      assert EntriesOverlap(s.tasks[t].id, s.tasks[u].id, p.facts);
    }
  }

  lemma ChoiceInParallel(p: Program, s: State, ts: seq<nat>)
    requires CircularWait(s, ts) && WaitsDescribed(p, s) && Coherent(p, s)
    ensures PairwiseParallel(ChoiceOf(p, s, ts), p.facts)
  {
    hide InParallel, Coherent, RunsAt;
    var c := ChoiceOf(p, s, ts);
    forall i, j | 0 <= i < j < |c|
      ensures InParallel(c[i], c[j], p.facts)
    {
      ChoiceLocks(p, s, ts, i);
      ChoiceLocks(p, s, ts, j);
      assert DescribesWait(p, s, ts[i], s.waits[ts[i]]) && DescribesWait(p, s, ts[j], s.waits[ts[j]]);
      DescribedInParallel(p, s, ts[i], ts[j], c[i], c[j], Kept(s, ts, i), Kept(s, ts, j));
    }
  }

  /** A gate would be owned by two threads. */
  lemma ChoiceUngated(p: Program, s: State, ts: seq<nat>)
    requires CircularWait(s, ts) && WaitsDescribed(p, s)
    ensures !HasGate(ChoiceOf(p, s, ts))
  {
    var c := ChoiceOf(p, s, ts);
    ChoiceLocks(p, s, ts, 0);
    ChoiceLocks(p, s, ts, 1);
    forall gate
      ensures !IsGate(c, gate)
    {
      assert c[0] in c && c[1] in c;
      assert !(gate in Held(s, ts[0]) && gate in Held(s, ts[1]));
    }
  }

  lemma {:induction false} AddressesRise(p: Program, s: State, ts: seq<nat>, i: nat)
    requires CircularWait(s, ts) && WaitsDescribed(p, s) && AddressOrdered(ChoiceOf(p, s, ts)) && 0 < i < |ts|
    ensures p.address(Awaited(s, ts, 0)) < p.address(Awaited(s, ts, i))
  {
    ChoiceLocks(p, s, ts, i);
    assert ChoiceOf(p, s, ts)[i] in ChoiceOf(p, s, ts);
    if i > 1 {
      AddressesRise(p, s, ts, i - 1);
    }
  }

  /** No layout puts each lock below the next all around the wait. */
  lemma ChoiceNotAddressOrdered(p: Program, s: State, ts: seq<nat>)
    requires CircularWait(s, ts) && WaitsDescribed(p, s)
    ensures !AddressOrdered(ChoiceOf(p, s, ts))
  {
    if AddressOrdered(ChoiceOf(p, s, ts)) {
      AddressesRise(p, s, ts, |ts| - 1);
      ChoiceLocks(p, s, ts, 0);
    }
  }

  lemma ChoiceOnEdges(p: Program, s: State, ts: seq<nat>)
    requires CircularWait(s, ts) && WaitsDescribed(p, s)
    ensures Key(ChoiceOf(p, s, ts)) == WaitEdges(s, ts)
  {
    hide CircularWait, WaitsDescribed, ChoiceOf, OrderOf, Kept, Awaited, Key;
    var c := ChoiceOf(p, s, ts);
    forall edge
      ensures edge in Key(c) <==> edge in WaitEdges(s, ts)
    {
      InKey(c, edge);
      if HasEdge(c, edge) {
        var i :| 0 <= i < |c| && edge == (c[i].firstLockId, c[i].secondLockId);
        ChoiceLocks(p, s, ts, i);
      }
      if edge in WaitEdges(s, ts) {
        var i :| 0 <= i < |ts| && edge == (Kept(s, ts, i), Awaited(s, ts, i));
        ChoiceLocks(p, s, ts, i);
        assert edge == (c[i].firstLockId, c[i].secondLockId);
      }
    }
  }

  lemma ChoiceOfEdges(p: Program, s: State, ts: seq<nat>)
    requires CircularWait(s, ts) && WaitsDescribed(p, s)
    ensures forall order | order in ChoiceOf(p, s, ts) :: IsEdge(order, p.orders, p.facts)
  {
    var c := ChoiceOf(p, s, ts);
    ChoiceIsCycle(p, s, ts);
    forall i | 0 <= i < |c|
      ensures IsEdge(c[i], p.orders, p.facts)
    {
      ChoiceLocks(p, s, ts, i);
    }
  }

  /** The orders of a circular wait are a choice that may deadlock. */
  lemma WaitMayDeadlock(p: Program, s: State, ts: seq<nat>)
    requires CircularWait(s, ts) && WaitsDescribed(p, s) && Coherent(p, s)
    ensures MayDeadlock(ChoiceOf(p, s, ts), p.orders, p.facts)
  {
    hide CircularWait, WaitsDescribed, Coherent, ChoiceOf, IsCycle, PairwiseParallel, IsEdge, HasGate, AddressOrdered;
    ChoiceIsCycle(p, s, ts);
    ChoiceInParallel(p, s, ts);
    ChoiceUngated(p, s, ts);
    ChoiceNotAddressOrdered(p, s, ts);
    ChoiceOfEdges(p, s, ts);
  }

  /** Deadlock soundness over runs: in every state a run reaches with a circular wait, the report has a cycle on
      exactly the edges of the wait, or says that the search is incomplete. */
  lemma DeadlockReported(p: Program, report: Report, run: seq<State>, ts: seq<nat>)
    requires Judges(report, p.orders, p.facts) && IsRun(p, run) && CircularWait(run[|run| - 1], ts)
    ensures report.searchIncomplete || Reports(report.cycles, WaitEdges(run[|run| - 1], ts))
  {
    var s := run[|run| - 1];
    RunKeepsDescribed(p, run);
    WaitMayDeadlock(p, s, ts);
    ChoiceOnEdges(p, s, ts);
  }

  /** Deadlock soundness past the bound: a circular wait a run reaches is reported even by an incomplete search, when
      the walk from the lowest-numbered lock of the wait stays within its share. */
  lemma DeadlockReportedWithinShare(p: Program, report: Report, sp: Space, run: seq<State>, ts: seq<nat>)
    requires sp.orders == p.orders && sp.facts == p.facts && InRange(sp.graph) && ReportsWithinShare(report, sp)
    requires IsRun(p, run) && CircularWait(run[|run| - 1], ts) && WithinShare(sp, WaitEdges(run[|run| - 1], ts))
    ensures Reports(report.cycles, WaitEdges(run[|run| - 1], ts))
  {
    hide WithinShare, Key, InRange, Reports;
    var s := run[|run| - 1];
    RunKeepsDescribed(p, run);
    WaitMayDeadlock(p, s, ts);
    ChoiceOnEdges(p, s, ts);
  }
}
