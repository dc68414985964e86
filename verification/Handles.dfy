/** Thread handles as functions name them, and how a name crosses a call. */
module Handles {
  import opened ControlFlow

  const MAX_HANDLE_STEPS: nat := 16

  datatype Root =
    | Global(name: string)
    | Parameter(functionId: string, index: nat)
    | Local(name: string)

  /** Storage that holds a thread: an object, and the indexing steps into it. */
  datatype Handle = Handle(root: Root, steps: seq<string>)

  /** A handle a join can be matched on: no index left unknown, and not so deep that recursion built it. */
  predicate IsNameable(handle: Handle) {
    "*" !in handle.steps && |handle.steps| <= MAX_HANDLE_STEPS
  }

  /** The callee's handle as its caller names it: a global stays itself, what is reached through a parameter becomes
      what the call passes there. */
  function HandleAtCaller(handle: Handle, callee: string, args: seq<Option<Handle>>): Option<Handle> {
    match handle.root
    case Global(_) => Some(handle)
    case Local(_) => None
    case Parameter(functionId, index) =>
      if functionId != callee || index >= |args| || args[index].None? then None
      else
        var placed := Handle(args[index].value.root, args[index].value.steps + handle.steps);
        if IsNameable(placed) then Some(placed) else None
  }

  predicate Hands(handle: Handle, arg: Option<Handle>) {
    arg.Some? && IsNameable(arg.value) && arg.value.root == handle.root && arg.value.steps <= handle.steps
  }

  function HandleThrough(handle: Handle, args: seq<Option<Handle>>, callee: string, index: nat): Option<Handle>
    decreases |args| - index
  {
    if index >= |args| then None
    else if Hands(handle, args[index])
    then Some(Handle(Parameter(callee, index), handle.steps[|args[index].value.steps|..]))
    else HandleThrough(handle, args, callee, index + 1)
  }

  /** The caller's handle as the callee names it: through the first parameter the call hands its storage over on. */
  function HandleAtCallee(handle: Handle, args: seq<Option<Handle>>, callee: string): Option<Handle> {
    if handle.root.Global? then Some(handle) else HandleThrough(handle, args, callee, 0)
  }

  /** The call hands the handle's storage over on this argument: it is named, with no unknown index and few enough steps,
      and what it names holds the handle. */
  ghost predicate HandsOn(handle: Handle, args: seq<Option<Handle>>, index: nat) {
    && index < |args| && args[index].Some?
    && (forall k | 0 <= k < |args[index].value.steps| :: args[index].value.steps[k] != "*")
    && |args[index].value.steps| <= 16 && |args[index].value.steps| <= |handle.steps|
    && args[index].value == Handle(handle.root, handle.steps[..|args[index].value.steps|])
  }

  lemma HandsIff(handle: Handle, args: seq<Option<Handle>>, index: nat)
    requires index < |args|
    ensures Hands(handle, args[index]) <==> HandsOn(handle, args, index)
  {
    if args[index].Some? {
      var steps := args[index].value.steps;
      assert "*" in steps <==> exists k | 0 <= k < |steps| :: steps[k] == "*";
    }
  }

  /** The first argument from `from` on that does. */
  ghost predicate FirstToHandOn(handle: Handle, args: seq<Option<Handle>>, from: nat, index: nat) {
    from <= index && HandsOn(handle, args, index) && forall k: nat | from <= k < index :: !HandsOn(handle, args, k)
  }

  lemma {:induction false} ThroughIff(handle: Handle, args: seq<Option<Handle>>, callee: string, from: nat, name: Handle)
    ensures HandleThrough(handle, args, callee, from) == Some(name)
       <==> exists index: nat :: FirstToHandOn(handle, args, from, index)
                                 && name == Handle(Parameter(callee, index), handle.steps[|args[index].value.steps|..])
    decreases |args| - from
  {
    if from < |args| {
      HandsIff(handle, args, from);
      if Hands(handle, args[from]) {
        hide HandsOn, Hands;
        assert FirstToHandOn(handle, args, from, from);
        assert forall index: nat :: FirstToHandOn(handle, args, from, index) ==> index == from;
      } else {
        ThroughIff(handle, args, callee, from + 1, name);
        assert forall index: nat ::
            FirstToHandOn(handle, args, from, index) <==> FirstToHandOn(handle, args, from + 1, index);
      }
    }
  }

  /** The callee's name for a handle: a global's is the same, any other is reached through the first parameter the call
      hands its storage over on, by the steps left. */
  lemma HandleAtCalleeIff(handle: Handle, args: seq<Option<Handle>>, callee: string, name: Handle)
    ensures HandleAtCallee(handle, args, callee) == Some(name)
       <==> if handle.root.Global? then name == handle
            else exists index: nat :: FirstToHandOn(handle, args, 0, index)
                   && name == Handle(Parameter(callee, index), handle.steps[|args[index].value.steps|..])
  {
    hide FirstToHandOn;
    ThroughIff(handle, args, callee, 0, name);
  }

  lemma {:induction false} ThroughAndBack(handle: Handle, args: seq<Option<Handle>>, callee: string, index: nat)
    requires IsNameable(handle) && HandleThrough(handle, args, callee, index).Some?
    ensures HandleAtCaller(HandleThrough(handle, args, callee, index).value, callee, args) == Some(handle)
    decreases |args| - index
  {
    if Hands(handle, args[index]) {
      var steps := args[index].value.steps;
      assert steps + handle.steps[|steps|..] == handle.steps;
    } else {
      ThroughAndBack(handle, args, callee, index + 1);
    }
  }

  /** Naming a handle in the callee and back in the caller gives the handle, when it can be named at all; a handle past
      the step limit is lost on the way back. */
  lemma CalleeAndBack(handle: Handle, args: seq<Option<Handle>>, callee: string)
    requires HandleAtCallee(handle, args, callee).Some?
    ensures HandleAtCaller(HandleAtCallee(handle, args, callee).value, callee, args) == Some(handle)
       <==> handle.root.Global? || IsNameable(handle)
  {
    if !handle.root.Global? {
      if IsNameable(handle) {
        ThroughAndBack(handle, args, callee, 0);
      } else {
        ThroughNotBack(handle, args, callee, 0);
      }
    }
  }

  lemma {:induction false} ThroughNotBack(handle: Handle, args: seq<Option<Handle>>, callee: string, index: nat)
    requires !IsNameable(handle) && HandleThrough(handle, args, callee, index).Some?
    ensures HandleAtCaller(HandleThrough(handle, args, callee, index).value, callee, args) == None
    decreases |args| - index
  {
    if Hands(handle, args[index]) {
      var steps := args[index].value.steps;
      assert steps + handle.steps[|steps|..] == handle.steps;
    } else {
      ThroughNotBack(handle, args, callee, index + 1);
    }
  }

  lemma {:induction false} ThroughSome(handle: Handle, args: seq<Option<Handle>>, callee: string, index: nat, at: nat)
    requires index <= at < |args| && Hands(handle, args[at])
    ensures HandleThrough(handle, args, callee, index).Some?
    decreases |args| - index
  {
    if !Hands(handle, args[index]) {
      ThroughSome(handle, args, callee, index + 1, at);
    }
  }

  /** What a caller learns of a callee's handle it can hand down again: the callee names the same storage, if not
      always through the same parameter. */
  lemma CallerAndBack(handle: Handle, args: seq<Option<Handle>>, callee: string)
    requires HandleAtCaller(handle, callee, args).Some?
    ensures var placed := HandleAtCaller(handle, callee, args).value;
            var again := HandleAtCallee(placed, args, callee);
            again.Some? && HandleAtCaller(again.value, callee, args) == Some(placed)
  {
    var placed := HandleAtCaller(handle, callee, args).value;
    if !placed.root.Global? {
      var arg := args[handle.root.index].value;
      assert placed.steps[..|arg.steps|] == arg.steps;
      assert forall step | step in arg.steps :: step in placed.steps;
      ThroughSome(placed, args, callee, 0, handle.root.index);
      ThroughAndBack(placed, args, callee, 0);
    }
  }

  // ----- only finitely many names ------------------------------------------------------------------

  /** Every sequence of at most `n` of these steps. */
  ghost function SequencesUpTo(alphabet: set<string>, n: nat): set<seq<string>> {
    if n == 0 then {[]}
    else {[]} + set step, rest | step in alphabet && rest in SequencesUpTo(alphabet, n - 1) :: [step] + rest
  }

  lemma {:induction false} SequenceListed(alphabet: set<string>, n: nat, steps: seq<string>)
    requires |steps| <= n && forall step | step in steps :: step in alphabet
    ensures steps in SequencesUpTo(alphabet, n)
  {
    if steps != [] {
      SequenceListed(alphabet, n - 1, steps[1..]);
      assert steps == [steps[0]] + steps[1..];
      assert steps[0] in alphabet && steps[1..] in SequencesUpTo(alphabet, n - 1);
    }
  }

  lemma {:induction false} ListedSteps(alphabet: set<string>, n: nat, steps: seq<string>)
    requires steps in SequencesUpTo(alphabet, n)
    ensures |steps| <= n && forall step | step in steps :: step in alphabet
  {
    if n > 0 && steps != [] {
      var step, rest :| step in alphabet && rest in SequencesUpTo(alphabet, n - 1) && steps == [step] + rest;
      ListedSteps(alphabet, n - 1, rest);
    }
  }

  ghost function StepsOf(handles: set<Handle>): set<string> {
    set handle, i | handle in handles && 0 <= i < |handle.steps| :: handle.steps[i]
  }

  /** The handles written at sites, and every nameable one a call can build: a passed root, then steps some handle
      written in the unit has. */
  ghost function Universe(sites: set<Handle>, args: set<Handle>): set<Handle> {
    sites + set arg, steps | arg in args && steps in SequencesUpTo(StepsOf(sites + args), MAX_HANDLE_STEPS) ::
      Handle(arg.root, steps)
  }

  lemma UniverseSteps(sites: set<Handle>, args: set<Handle>, handle: Handle, step: string)
    requires handle in Universe(sites, args) && step in handle.steps
    ensures step in StepsOf(sites + args)
  {
    if handle in sites {
      assert handle in sites + args;
    } else {
      ListedSteps(StepsOf(sites + args), MAX_HANDLE_STEPS, handle.steps);
    }
  }

  /** Translating a handle at a call stays among them, however often it is done. */
  lemma TranslatedInUniverse(sites: set<Handle>, args: set<Handle>, handle: Handle, callee: string,
                             passed: seq<Option<Handle>>)
    requires handle in Universe(sites, args)
    requires forall i | 0 <= i < |passed| && passed[i].Some? :: passed[i].value in args
    ensures HandleAtCaller(handle, callee, passed).Some? ==> HandleAtCaller(handle, callee, passed).value in Universe(sites, args)
  {
    hide Universe, StepsOf;
    var placed := HandleAtCaller(handle, callee, passed);
    if placed.Some? && !handle.root.Global? {
      var arg := passed[handle.root.index].value;
      forall step | step in placed.value.steps
        ensures step in StepsOf(sites + args)
      {
        if step in handle.steps {
          UniverseSteps(sites, args, handle, step);
        } else {
          ArgSteps(sites, args, arg, step);
        }
      }
      SequenceListed(StepsOf(sites + args), MAX_HANDLE_STEPS, placed.value.steps);
      BuiltInUniverse(sites, args, arg, placed.value.steps);
    }
  }

  lemma ArgSteps(sites: set<Handle>, args: set<Handle>, arg: Handle, step: string)
    requires arg in args && step in arg.steps
    ensures step in StepsOf(sites + args)
  {
    assert arg in sites + args;
  }

  lemma BuiltInUniverse(sites: set<Handle>, args: set<Handle>, arg: Handle, steps: seq<string>)
    requires arg in args && steps in SequencesUpTo(StepsOf(sites + args), MAX_HANDLE_STEPS)
    ensures Handle(arg.root, steps) in Universe(sites, args)
  {
  }
}
