/** What a function may write through its parameters: writes kept up to a cap, past which the object counts as
    written whole. */
module MemoryEffects {
  import opened ControlFlow

  /** The end of a write whose extent is unknown. */
  const UNBOUNDED: nat := 0xffff_ffff_ffff_ffff
  /** Past this many distinct writes through one parameter, the parameter counts as written whole. */
  const MAX_WRITES: nat := 8

  datatype Written = Written(begin: nat, end: nat)

  const WHOLE := Written(0, UNBOUNDED)

  predicate Before(a: Written, b: Written) {
    a.begin < b.begin || (a.begin == b.begin && a.end < b.end)
  }

  // ----- recording one write -------------------------------------------------------------------------

  ghost predicate Ordered(written: seq<Written>) {
    forall i, j | 0 <= i < j < |written| ::
      written[i].begin < written[j].begin || (written[i].begin == written[j].begin && written[i].end < written[j].end)
  }

  ghost function SetOf(written: seq<Written>): set<Written> {
    set w | w in written
  }

  /** How a set of writes is kept: the set itself, in order, or the whole object once it exceeds the cap or
      contains it. */
  ghost predicate Keeps(written: seq<Written>, writes: set<Written>) {
    if WHOLE in writes || |writes| > MAX_WRITES then written == [WHOLE]
    else Ordered(written) && SetOf(written) == writes && |written| == |writes|
  }

  /** Where `write` goes in an ordered list that has it not. */
  method InsertionPoint(written: seq<Written>, write: Written) returns (i: nat)
    requires Ordered(written) && write !in written
    ensures i <= |written|
    ensures forall k | 0 <= k < i :: Before(written[k], write)
    ensures forall k | i <= k < |written| :: Before(write, written[k])
  {
    i := 0;
    while i < |written| && !Before(write, written[i])
      invariant i <= |written| && forall k | 0 <= k < i :: Before(written[k], write)
    {
      assert written[i] in written;
      i := i + 1;
    }
    if i < |written| {
      forall k | i <= k < |written|
        ensures Before(write, written[k])
      {
        assert k > i ==> Before(written[i], written[k]);
      }
    }
  }

  /** Adds one write. */
  method Record(written: seq<Written>, write: Written, ghost writes: set<Written>) returns (after: seq<Written>)
    requires Keeps(written, writes)
    ensures Keeps(after, writes + {write})
  {
    hide SetOf, Before;
    if WHOLE in written || write in written {
      AlreadyKept(written, write, writes);
      return written;
    }
    NotKeptYet(written, write, writes);
    if write == WHOLE || |written| == MAX_WRITES {
      return [WHOLE];
    }
    var i := InsertionPoint(written, write);
    after := written[..i] + [write] + written[i..];
    Inserted(written, write, i);
  }

  lemma Inserted(written: seq<Written>, write: Written, i: nat)
    requires Ordered(written) && i <= |written|
    requires forall k | 0 <= k < i :: Before(written[k], write)
    requires forall k | i <= k < |written| :: Before(write, written[k])
    ensures var after := written[..i] + [write] + written[i..];
            Ordered(after) && SetOf(after) == SetOf(written) + {write} && |after| == |written| + 1
  {
    assert written == written[..i] + written[i..];
  }

  lemma AlreadyKept(written: seq<Written>, write: Written, writes: set<Written>)
    requires Keeps(written, writes) && (WHOLE in written || write in written)
    ensures Keeps(written, writes + {write})
  {
    if WHOLE in writes || |writes| > MAX_WRITES {
      assert writes + {write} == writes || |writes + {write}| == |writes| + 1;
    } else {
      assert write in SetOf(written) || WHOLE in SetOf(written);
      assert writes + {write} == writes;
    }
  }

  lemma NotKeptYet(written: seq<Written>, write: Written, writes: set<Written>)
    requires Keeps(written, writes) && WHOLE !in written && write !in written
    ensures WHOLE !in writes && |writes| <= MAX_WRITES && SetOf(written) == writes && |written| == |writes|
    ensures |writes + {write}| == |writes| + 1
  {
    assert write !in SetOf(written);
  }

  /** The list kept does not depend on the order in which the writes came. */
  lemma KeptOnce(a: seq<Written>, b: seq<Written>, writes: set<Written>)
    requires Keeps(a, writes) && Keeps(b, writes)
    ensures a == b
  {
    if WHOLE !in writes && |writes| <= MAX_WRITES {
      OrderedUnique(a, b);
    }
  }

  lemma {:induction false} OrderedUnique(a: seq<Written>, b: seq<Written>)
    requires Ordered(a) && Ordered(b) && SetOf(a) == SetOf(b)
    ensures a == b
    decreases |a|
  {
    assert a != [] ==> a[0] in SetOf(a);
    assert b != [] ==> b[0] in SetOf(b);
    if a == [] {
      return;
    }
    FirstIsLeast(a, b);
    FirstIsLeast(b, a);
    forall w
      ensures w in SetOf(a[1..]) <==> w in SetOf(b[1..])
    {
      FirstApart(a, w);
      FirstApart(b, w);
    }
    OrderedUnique(a[1..], b[1..]);
  }

  lemma FirstIsLeast(a: seq<Written>, b: seq<Written>)
    requires Ordered(a) && a != [] && b != [] && SetOf(a) == SetOf(b)
    ensures a[0] == b[0] || Before(a[0], b[0])
  {
    assert b[0] in SetOf(a);
    var i :| 0 <= i < |a| && a[i] == b[0];
  }

  lemma FirstApart(a: seq<Written>, w: Written)
    requires Ordered(a) && a != []
    ensures w in SetOf(a[1..]) <==> w in SetOf(a) && w != a[0]
  {
    assert a == [a[0]] + a[1..];
    assert forall i | 0 <= i < |a| - 1 :: a[1..][i] == a[i + 1] && Before(a[0], a[i + 1]);
  }

  /** The larger of two lists: the whole object is above every other. */
  ghost predicate Below(a: seq<Written>, b: seq<Written>) {
    WHOLE in b || SetOf(a) <= SetOf(b)
  }

  /** More writes are kept as at least as much. */
  lemma KeepsMonotone(a: seq<Written>, b: seq<Written>, fewer: set<Written>, more: set<Written>)
    requires Keeps(a, fewer) && Keeps(b, more) && fewer <= more
    ensures Below(a, b)
  {
    if WHOLE !in more && |more| <= MAX_WRITES {
      SubsetSize(fewer, more);
    }
  }

  lemma SubsetSize<T>(a: set<T>, b: set<T>)
    requires a <= b
    ensures |a| <= |b|
  {
    assert b == a + (b - a);
  }

  // ----- functions -------------------------------------------------------------------------------------

  /** Where a pointer points: into a local, into what a parameter points to, or somewhere that cannot be named. */
  datatype Place = LocalPlace | UnknownPlace | ParameterPlace(index: nat, offset: Option<int>)

  /** What an instruction may write. A size or a length of UNBOUNDED is unknown. */
  datatype Instruction =
    | Store(place: Place, size: nat)
    | Fill(place: Place, size: nat)
    | Call(callee: nat, arguments: seq<Place>)
    | OpaqueCall(onlyReads: bool, pointers: seq<Place>)
    | OtherWrite
    | NoWrite

  /** A parameter's pointer is kept at once, or when one of the calls it is handed to keeps it. */
  datatype Escape = Escape(atOnce: bool, handedTo: seq<(nat, nat)>)

  datatype FunctionDef = FunctionDef(body: seq<Instruction>, parameters: seq<Escape>)

  /** The functions defined, numbered. */
  type Module = seq<FunctionDef>

  datatype ParameterEffects = ParameterEffects(written: seq<Written>, escapes: bool)

  datatype FunctionEffects = FunctionEffects(parameters: seq<ParameterEffects>, elsewhere: bool)

  type Effects = seq<FunctionEffects>

  ghost predicate ValidModule(m: Module) {
    && (forall f: nat, i: nat | f < |m| && i < |m[f].body| :: ValidInstruction(m, f, m[f].body[i]))
    && (forall f: nat, p: nat, k: nat | f < |m| && p < |m[f].parameters| && k < |m[f].parameters[p].handedTo| ::
          m[f].parameters[p].handedTo[k].0 < |m|)
  }

  ghost predicate ValidPlace(m: Module, f: nat, place: Place)
    requires f < |m|
  {
    place.ParameterPlace? ==> place.index < |m[f].parameters|
  }

  ghost predicate ValidInstruction(m: Module, f: nat, instruction: Instruction)
    requires f < |m|
  {
    match instruction
    case Store(place, _) => ValidPlace(m, f, place)
    case Fill(place, _) => ValidPlace(m, f, place)
    case Call(callee, arguments) =>
      callee < |m| && forall q: nat | q < |arguments| :: ValidPlace(m, f, arguments[q])
    case OpaqueCall(_, pointers) => forall q: nat | q < |pointers| :: ValidPlace(m, f, pointers[q])
    case _ => true
  }

  ghost predicate Shaped(m: Module, e: Effects) {
    |e| == |m| && forall f: nat | f < |m| :: |e[f].parameters| == |m[f].parameters|
  }

  /** The bytes a write of `size` bytes covers from `offset` on. */
  function ExtentOf(offset: Option<int>, size: nat): Written {
    if offset.None? || offset.value < 0 then WHOLE
    else
      var begin: nat := offset.value;
      Written(begin, if begin + size >= UNBOUNDED then UNBOUNDED else begin + size)
  }

  /** A callee's write, as its caller places it from where the argument points. */
  function Shifted(offset: Option<int>, write: Written): Written {
    if write.end == UNBOUNDED || write.end < write.begin then ExtentOf(None, UNBOUNDED)
    else ExtentOf(if offset.Some? then Some(offset.value + write.begin) else None, write.end - write.begin)
  }

  // ----- what each instruction contributes ---------------------------------------------------------------

  predicate Into(place: Place, p: nat) {
    place.ParameterPlace? && place.index == p
  }

  ghost function WritesOf(e: Effects, instruction: Instruction, p: nat): set<Written> {
    match instruction
    case Store(place, size) => if Into(place, p) then {ExtentOf(place.offset, size)} else {}
    case Fill(place, size) => if Into(place, p) then {ExtentOf(place.offset, size)} else {}
    case Call(callee, arguments) => if callee < |e| then CallWrites(e[callee], arguments, |arguments|, p) else {}
    case OpaqueCall(onlyReads, pointers) => if onlyReads then {} else OpaqueWrites(pointers, |pointers|, p)
    case _ => {}
  }

  ghost function CallWrites(callee: FunctionEffects, arguments: seq<Place>, n: nat, p: nat): set<Written>
    requires n <= |arguments|
  {
    if n == 0 then {}
    else
      CallWrites(callee, arguments, n - 1, p)
      + (if n - 1 < |callee.parameters| && Into(arguments[n - 1], p)
         then ShiftedWrites(arguments[n - 1].offset, callee.parameters[n - 1].written) else {})
  }

  ghost function ShiftedWrites(offset: Option<int>, written: seq<Written>): set<Written> {
    set w | w in written :: Shifted(offset, w)
  }

  ghost function OpaqueWrites(pointers: seq<Place>, n: nat, p: nat): set<Written>
    requires n <= |pointers|
  {
    if n == 0 then {}
    else OpaqueWrites(pointers, n - 1, p)
         + (if Into(pointers[n - 1], p) then {ExtentOf(pointers[n - 1].offset, UNBOUNDED)} else {})
  }

  ghost function BodyWrites(e: Effects, body: seq<Instruction>, n: nat, p: nat): set<Written>
    requires n <= |body|
  {
    if n == 0 then {} else BodyWrites(e, body, n - 1, p) + WritesOf(e, body[n - 1], p)
  }

  predicate ArgumentElsewhere(callee: FunctionEffects, arguments: seq<Place>, q: nat) {
    && q < |arguments| && q < |callee.parameters|
    && arguments[q].UnknownPlace? && callee.parameters[q].written != []
  }

  predicate WritesElsewhere(e: Effects, instruction: Instruction) {
    match instruction
    case Store(place, _) => place.UnknownPlace?
    case Fill(place, _) => place.UnknownPlace?
    case Call(callee, arguments) =>
      callee < |e| && (e[callee].elsewhere
                       || exists q: nat | q < |arguments| :: ArgumentElsewhere(e[callee], arguments, q))
    case OpaqueCall(onlyReads, _) => !onlyReads
    case OtherWrite => true
    case NoWrite => false
  }

  predicate KeepsPointer(e: Effects, handed: (nat, nat)) {
    handed.0 < |e| && (handed.1 >= |e[handed.0].parameters| || e[handed.0].parameters[handed.1].escapes)
  }

  predicate Escapes(e: Effects, escape: Escape) {
    escape.atOnce || exists k: nat | k < |escape.handedTo| :: KeepsPointer(e, escape.handedTo[k])
  }

  /** What `effectsOf` computes for a function, given the effects known of all. */
  ghost predicate IsEffectsOf(m: Module, e: Effects, f: nat, r: FunctionEffects)
    requires f < |m|
  {
    && |r.parameters| == |m[f].parameters|
    && (forall p: nat | p < |r.parameters| ::
          && Keeps(r.parameters[p].written, BodyWrites(e, m[f].body, |m[f].body|, p))
          && (r.parameters[p].escapes <==> Escapes(e, m[f].parameters[p])))
    && (r.elsewhere <==> exists i: nat | i < |m[f].body| :: WritesElsewhere(e, m[f].body[i]))
  }

  lemma EffectsUnique(m: Module, e: Effects, f: nat, a: FunctionEffects, b: FunctionEffects)
    requires f < |m| && IsEffectsOf(m, e, f, a) && IsEffectsOf(m, e, f, b)
    ensures a == b
  {
    hide Keeps, BodyWrites, Escapes, WritesElsewhere;
    forall p: nat | p < |a.parameters|
      ensures a.parameters[p] == b.parameters[p]
    {
      KeptOnce(a.parameters[p].written, b.parameters[p].written, BodyWrites(e, m[f].body, |m[f].body|, p));
    }
  }

  // ----- more effects give more effects --------------------------------------------------------------------

  ghost predicate ParameterBelow(a: ParameterEffects, b: ParameterEffects) {
    Below(a.written, b.written) && (a.escapes ==> b.escapes)
  }

  ghost predicate FunctionBelow(a: FunctionEffects, b: FunctionEffects) {
    && |a.parameters| == |b.parameters| && (a.elsewhere ==> b.elsewhere)
    && forall p: nat | p < |a.parameters| :: ParameterBelow(a.parameters[p], b.parameters[p])
  }

  ghost predicate AllBelow(a: Effects, b: Effects) {
    |a| == |b| && forall f: nat | f < |a| :: FunctionBelow(a[f], b[f])
  }

  /** A set of writes that covers another one: it has the whole object, or every write of it. */
  ghost predicate Dominates(more: set<Written>, fewer: set<Written>) {
    WHOLE in more || fewer <= more
  }

  lemma KeptBelow(a: seq<Written>, b: seq<Written>, fewer: set<Written>, more: set<Written>)
    requires Keeps(a, fewer) && Keeps(b, more) && Dominates(more, fewer)
    ensures Below(a, b)
  {
    if WHOLE !in more {
      KeepsMonotone(a, b, fewer, more);
    }
  }

  lemma ShiftedDominates(offset: Option<int>, a: seq<Written>, b: seq<Written>)
    requires Below(a, b)
    ensures Dominates(ShiftedWrites(offset, b), ShiftedWrites(offset, a))
  {
    if WHOLE in b {
      assert Shifted(offset, WHOLE) == WHOLE;
      assert Shifted(offset, WHOLE) in ShiftedWrites(offset, b);
    } else {
      assert forall w | w in a :: w in SetOf(a);
    }
  }

  lemma {:induction false} CallDominates(a: FunctionEffects, b: FunctionEffects, arguments: seq<Place>, n: nat, p: nat)
    requires n <= |arguments| && FunctionBelow(a, b)
    ensures Dominates(CallWrites(b, arguments, n, p), CallWrites(a, arguments, n, p))
  {
    hide ShiftedWrites, Below;
    if n > 0 {
      CallDominates(a, b, arguments, n - 1, p);
      if n - 1 < |a.parameters| && Into(arguments[n - 1], p) {
        assert ParameterBelow(a.parameters[n - 1], b.parameters[n - 1]);
        ShiftedDominates(arguments[n - 1].offset, a.parameters[n - 1].written, b.parameters[n - 1].written);
      }
    }
  }

  lemma {:induction false} BodyDominates(a: Effects, b: Effects, body: seq<Instruction>, n: nat, p: nat)
    requires n <= |body| && AllBelow(a, b)
    ensures Dominates(BodyWrites(b, body, n, p), BodyWrites(a, body, n, p))
  {
    hide FunctionBelow, CallWrites, OpaqueWrites, ExtentOf;
    if n > 0 {
      BodyDominates(a, b, body, n - 1, p);
      var last := body[n - 1];
      if last.Call? && last.callee < |a| {
        CallDominates(a[last.callee], b[last.callee], last.arguments, |last.arguments|, p);
      }
    }
  }

  lemma ElsewhereMonotone(a: Effects, b: Effects, instruction: Instruction)
    requires AllBelow(a, b) && WritesElsewhere(a, instruction)
    ensures WritesElsewhere(b, instruction)
  {
    if instruction.Call? && !a[instruction.callee].elsewhere {
      var q: nat :| q < |instruction.arguments| && ArgumentElsewhere(a[instruction.callee], instruction.arguments, q);
      assert FunctionBelow(a[instruction.callee], b[instruction.callee]);
      var before, after := a[instruction.callee].parameters[q], b[instruction.callee].parameters[q];
      assert ParameterBelow(before, after);
      assert before.written[0] in SetOf(before.written);
      assert ArgumentElsewhere(b[instruction.callee], instruction.arguments, q);
    }
  }

  lemma EscapesMonotone(a: Effects, b: Effects, escape: Escape)
    requires AllBelow(a, b) && Escapes(a, escape)
    ensures Escapes(b, escape)
  {
    hide Below;
    if !escape.atOnce {
      var k: nat :| k < |escape.handedTo| && KeepsPointer(a, escape.handedTo[k]);
      var handed := escape.handedTo[k];
      assert FunctionBelow(a[handed.0], b[handed.0]);
      assert handed.1 < |a[handed.0].parameters| ==>
               ParameterBelow(a[handed.0].parameters[handed.1], b[handed.0].parameters[handed.1]);
      assert KeepsPointer(b, escape.handedTo[k]);
    }
  }

  /** What a function may write only grows with what its callees may. */
  lemma EffectsMonotone(m: Module, a: Effects, b: Effects, f: nat, x: FunctionEffects, y: FunctionEffects)
    requires f < |m| && AllBelow(a, b) && IsEffectsOf(m, a, f, x) && IsEffectsOf(m, b, f, y)
    ensures FunctionBelow(x, y)
  {
    hide AllBelow, Keeps, Below, Escapes, WritesElsewhere, BodyWrites;
    var body := m[f].body;
    forall p: nat | p < |x.parameters|
      ensures ParameterBelow(x.parameters[p], y.parameters[p])
    {
      BodyDominates(a, b, body, |body|, p);
      KeptBelow(x.parameters[p].written, y.parameters[p].written,
                BodyWrites(a, body, |body|, p), BodyWrites(b, body, |body|, p));
      if x.parameters[p].escapes {
        EscapesMonotone(a, b, m[f].parameters[p]);
      }
    }
    if x.elsewhere {
      var i: nat :| i < |body| && WritesElsewhere(a, body[i]);
      ElsewhereMonotone(a, b, body[i]);
    }
  }

  // ----- computing the effects of one function ---------------------------------------------------------------

  /** The list of each parameter keeps the writes recorded so far. */
  ghost predicate KeepsAll(r: FunctionEffects, recorded: seq<set<Written>>) {
    && |recorded| == |r.parameters|
    && forall p: nat | p < |recorded| :: Keeps(r.parameters[p].written, recorded[p])
  }

  ghost function ExtentInto(place: Place, size: nat, p: nat): set<Written> {
    if Into(place, p) then {ExtentOf(place.offset, size)} else {}
  }

  ghost predicate SameEscapes(a: FunctionEffects, b: FunctionEffects) {
    |a.parameters| == |b.parameters| && forall p: nat | p < |a.parameters| :: a.parameters[p].escapes == b.parameters[p].escapes
  }

  /** Records a write at a place: nothing for a local, somewhere else for a place that cannot be named. */
  method RecordAt(into: FunctionEffects, place: Place, size: nat, ghost recorded: seq<set<Written>>)
    returns (r: FunctionEffects, ghost after: seq<set<Written>>)
    requires KeepsAll(into, recorded) && (place.ParameterPlace? ==> place.index < |into.parameters|)
    ensures KeepsAll(r, after) && SameEscapes(into, r) && r.elsewhere == (into.elsewhere || place.UnknownPlace?)
    ensures |after| == |recorded| && forall p: nat | p < |after| :: after[p] == recorded[p] + ExtentInto(place, size, p)
  {
    hide Keeps;
    r, after := into, recorded;
    match place {
      case LocalPlace =>
      case UnknownPlace => r := into.(elsewhere := true);
      case ParameterPlace(index, offset) =>
        var write := ExtentOf(offset, size);
        var written := Record(into.parameters[index].written, write, recorded[index]);
        r := into.(parameters := into.parameters[index := into.parameters[index].(written := written)]);
        after := recorded[index := recorded[index] + {write}];
    }
  }

  /** Records what a callee writes through one parameter, from where the argument points. */
  method RecordArgument(into: FunctionEffects, place: Place, written: seq<Written>, ghost recorded: seq<set<Written>>)
    returns (r: FunctionEffects, ghost after: seq<set<Written>>)
    requires KeepsAll(into, recorded) && (place.ParameterPlace? ==> place.index < |into.parameters|)
    ensures KeepsAll(r, after) && SameEscapes(into, r)
    ensures r.elsewhere == (into.elsewhere || (place.UnknownPlace? && written != []))
    ensures |after| == |recorded| && forall p: nat | p < |after| ::
              after[p] == recorded[p] + (if Into(place, p) then ShiftedWrites(place.offset, written) else {})
  {
    hide Keeps, ExtentOf;
    r, after := into, recorded;
    for i := 0 to |written|
      invariant KeepsAll(r, after) && SameEscapes(into, r)
      invariant r.elsewhere == (into.elsewhere || (place.UnknownPlace? && i > 0))
      invariant |after| == |recorded| && forall p: nat | p < |after| ::
                  after[p] == recorded[p] + (if Into(place, p) then ShiftedWrites(place.offset, written[..i]) else {})
    {
      var write := written[i];
      var shifted := if write.end == UNBOUNDED || write.end < write.begin then None
                     else if place.ParameterPlace? && place.offset.Some? then Some(place.offset.value + write.begin)
                     else None;
      var size := if write.end == UNBOUNDED || write.end < write.begin then UNBOUNDED else write.end - write.begin;
      var moved := if place.ParameterPlace? then place.(offset := shifted) else place;
      ghost var before := after;
      r, after := RecordAt(r, moved, size, after);
      if place.ParameterPlace? {
        OneMoreShifted(place.offset, written, i);
        assert ExtentOf(shifted, size) == Shifted(place.offset, write);
      }
    }
    assert written[..|written|] == written;
  }

  lemma OneMoreShifted(offset: Option<int>, written: seq<Written>, i: nat)
    requires i < |written|
    ensures ShiftedWrites(offset, written[..i + 1]) == ShiftedWrites(offset, written[..i]) + {Shifted(offset, written[i])}
  {
    assert written[..i + 1] == written[..i] + [written[i]];
  }

  method RecordDefinedCall(into: FunctionEffects, callee: FunctionEffects, arguments: seq<Place>,
                           ghost recorded: seq<set<Written>>)
    returns (r: FunctionEffects, ghost after: seq<set<Written>>)
    requires KeepsAll(into, recorded)
    requires forall q: nat | q < |arguments| && arguments[q].ParameterPlace? :: arguments[q].index < |into.parameters|
    ensures KeepsAll(r, after) && SameEscapes(into, r)
    ensures r.elsewhere <==> (into.elsewhere || callee.elsewhere
                              || exists q: nat | q < |arguments| :: ArgumentElsewhere(callee, arguments, q))
    ensures |after| == |recorded| && forall p: nat | p < |after| ::
              after[p] == recorded[p] + CallWrites(callee, arguments, |arguments|, p)
  {
    hide Keeps, ShiftedWrites;
    r, after := into.(elsewhere := into.elsewhere || callee.elsewhere), recorded;
    for q := 0 to |arguments|
      invariant KeepsAll(r, after) && SameEscapes(into, r)
      invariant r.elsewhere <==> (into.elsewhere || callee.elsewhere
                                  || exists k: nat | k < q :: ArgumentElsewhere(callee, arguments, k))
      invariant |after| == |recorded| && forall p: nat | p < |after| ::
                  after[p] == recorded[p] + CallWrites(callee, arguments, q, p)
    {
      if q < |callee.parameters| {
        r, after := RecordArgument(r, arguments[q], callee.parameters[q].written, after);
      }
      assert ArgumentElsewhere(callee, arguments, q) <==>
               q < |callee.parameters| && arguments[q].UnknownPlace? && callee.parameters[q].written != [];
    }
  }

  method RecordOpaqueCall(into: FunctionEffects, pointers: seq<Place>, ghost recorded: seq<set<Written>>)
    returns (r: FunctionEffects, ghost after: seq<set<Written>>)
    requires KeepsAll(into, recorded)
    requires forall q: nat | q < |pointers| && pointers[q].ParameterPlace? :: pointers[q].index < |into.parameters|
    ensures KeepsAll(r, after) && SameEscapes(into, r) && r.elsewhere
    ensures |after| == |recorded| && forall p: nat | p < |after| ::
              after[p] == recorded[p] + OpaqueWrites(pointers, |pointers|, p)
  {
    hide Keeps, ExtentOf;
    r, after := into.(elsewhere := true), recorded;
    for q := 0 to |pointers|
      invariant KeepsAll(r, after) && SameEscapes(into, r) && r.elsewhere
      invariant |after| == |recorded| && forall p: nat | p < |after| ::
                  after[p] == recorded[p] + OpaqueWrites(pointers, q, p)
    {
      r, after := RecordAt(r, pointers[q], UNBOUNDED, after);
    }
  }

  method RecordInstruction(m: Module, e: Effects, f: nat, instruction: Instruction, into: FunctionEffects,
                           ghost recorded: seq<set<Written>>)
    returns (r: FunctionEffects, ghost after: seq<set<Written>>)
    requires f < |m| && Shaped(m, e) && ValidInstruction(m, f, instruction) && |into.parameters| == |m[f].parameters|
    requires KeepsAll(into, recorded)
    ensures KeepsAll(r, after) && SameEscapes(into, r)
    ensures r.elsewhere <==> into.elsewhere || WritesElsewhere(e, instruction)
    ensures |after| == |recorded| && forall p: nat | p < |after| :: after[p] == recorded[p] + WritesOf(e, instruction, p)
  {
    hide KeepsAll, CallWrites, OpaqueWrites, ExtentOf;
    r, after := into, recorded;
    match instruction {
      case Store(place, size) => r, after := RecordAt(into, place, size, recorded);
      case Fill(place, size) => r, after := RecordAt(into, place, size, recorded);
      case Call(callee, arguments) => r, after := RecordDefinedCall(into, e[callee], arguments, recorded);
      case OpaqueCall(onlyReads, pointers) =>
        if !onlyReads {
          r, after := RecordOpaqueCall(into, pointers, recorded);
        }
      case OtherWrite =>
        r := into.(elsewhere := true);
        KeptElsewhere(into, recorded);
      case NoWrite =>
    }
  }

  lemma KeptElsewhere(into: FunctionEffects, recorded: seq<set<Written>>)
    requires KeepsAll(into, recorded)
    ensures KeepsAll(into.(elsewhere := true), recorded)
  {
  }

  method EffectsOf(m: Module, e: Effects, f: nat) returns (r: FunctionEffects)
    requires f < |m| && ValidModule(m) && Shaped(m, e)
    ensures IsEffectsOf(m, e, f, r)
  {
    hide Keeps, WritesOf, WritesElsewhere, Escapes, ValidInstruction;
    var body, parameters := m[f].body, m[f].parameters;
    r := FunctionEffects(seq(|parameters|, _ => ParameterEffects([], false)), false);
    ghost var recorded: seq<set<Written>> := seq(|parameters|, _ => {});
    NothingKept();
    for i := 0 to |body|
      invariant |r.parameters| == |parameters| && KeepsAll(r, recorded)
      invariant forall p: nat | p < |parameters| :: !r.parameters[p].escapes
      invariant r.elsewhere <==> exists k: nat | k < i :: WritesElsewhere(e, body[k])
      invariant forall p: nat | p < |recorded| :: recorded[p] == BodyWrites(e, body, i, p)
    {
      r, recorded := RecordInstruction(m, e, f, body[i], r, recorded);
    }
    for p := 0 to |parameters|
      invariant |r.parameters| == |parameters| && KeepsAll(r, recorded)
      invariant r.elsewhere <==> exists k: nat | k < |body| :: WritesElsewhere(e, body[k])
      invariant forall k: nat | k < p :: r.parameters[k].escapes <==> Escapes(e, parameters[k])
      invariant forall k: nat | p <= k < |parameters| :: !r.parameters[k].escapes
    {
      if Escapes(e, parameters[p]) {
        r := r.(parameters := r.parameters[p := r.parameters[p].(escapes := true)]);
      }
    }
  }

  lemma NothingKept()
    ensures Keeps([], {})
  {
  }

  // ----- the iteration -----------------------------------------------------------------------------------------

  /** Effects that give themselves back, function by function. */
  ghost predicate IsFixpoint(m: Module, e: Effects) {
    Shaped(m, e) && forall f: nat | f < |m| :: IsEffectsOf(m, e, f, e[f])
  }

  /** A list no larger than what would be kept of `writes`. */
  ghost predicate ListBelow(written: seq<Written>, writes: set<Written>) {
    WHOLE in writes || |writes| > MAX_WRITES || SetOf(written) <= writes
  }

  /** The effects `x` of a function are at most what it is computed to have from `e`. */
  ghost predicate RisesTo(m: Module, e: Effects, f: nat, x: FunctionEffects)
    requires f < |m|
  {
    && |x.parameters| == |m[f].parameters|
    && (forall p: nat | p < |x.parameters| ::
          && ListBelow(x.parameters[p].written, BodyWrites(e, m[f].body, |m[f].body|, p))
          && (x.parameters[p].escapes ==> Escapes(e, m[f].parameters[p])))
    && (x.elsewhere ==> exists i: nat | i < |m[f].body| :: WritesElsewhere(e, m[f].body[i]))
  }

  ghost predicate Rises(m: Module, e: Effects) {
    |e| == |m| && forall f: nat | f < |m| :: RisesTo(m, e, f, e[f])
  }

  lemma ComputedRises(m: Module, e: Effects, f: nat, r: FunctionEffects)
    requires f < |m| && IsEffectsOf(m, e, f, r)
    ensures RisesTo(m, e, f, r)
  {
    hide BodyWrites, Escapes, WritesElsewhere;
  }

  lemma RisesBelow(m: Module, e: Effects, f: nat, x: FunctionEffects, r: FunctionEffects)
    requires f < |m| && RisesTo(m, e, f, x) && IsEffectsOf(m, e, f, r)
    ensures FunctionBelow(x, r)
  {
    hide BodyWrites, Escapes, WritesElsewhere;
    forall p: nat | p < |x.parameters|
      ensures ParameterBelow(x.parameters[p], r.parameters[p])
    {
      assert Keeps(r.parameters[p].written, BodyWrites(e, m[f].body, |m[f].body|, p));
    }
  }

  lemma ListBelowMore(written: seq<Written>, fewer: set<Written>, more: set<Written>)
    requires ListBelow(written, fewer) && Dominates(more, fewer)
    ensures ListBelow(written, more)
  {
    if WHOLE !in more {
      SubsetSize(fewer, more);
    }
  }

  lemma RisesToMonotone(m: Module, a: Effects, b: Effects, f: nat, x: FunctionEffects)
    requires f < |m| && AllBelow(a, b) && RisesTo(m, a, f, x)
    ensures RisesTo(m, b, f, x)
  {
    hide AllBelow, ListBelow, Escapes, WritesElsewhere, BodyWrites;
    var body := m[f].body;
    forall p: nat | p < |x.parameters|
      ensures ListBelow(x.parameters[p].written, BodyWrites(b, body, |body|, p))
      ensures x.parameters[p].escapes ==> Escapes(b, m[f].parameters[p])
    {
      BodyDominates(a, b, body, |body|, p);
      ListBelowMore(x.parameters[p].written, BodyWrites(a, body, |body|, p), BodyWrites(b, body, |body|, p));
      if x.parameters[p].escapes {
        EscapesMonotone(a, b, m[f].parameters[p]);
      }
    }
    if x.elsewhere {
      var i: nat :| i < |body| && WritesElsewhere(a, body[i]);
      ElsewhereMonotone(a, b, body[i]);
    }
  }

  ghost predicate BelowFixpoints(m: Module, e: Effects) {
    forall x | IsFixpoint(m, x) :: AllBelow(e, x)
  }

  lemma BelowReflexive(a: FunctionEffects)
    ensures FunctionBelow(a, a)
  {
  }

  /** Every list is one the record keeps. */
  ghost predicate Tidy(written: seq<Written>) {
    Keeps(written, SetOf(written))
  }

  ghost predicate FunctionTidy(r: FunctionEffects) {
    forall p: nat | p < |r.parameters| :: Tidy(r.parameters[p].written)
  }

  lemma KeptIsTidy(written: seq<Written>, writes: set<Written>)
    requires Keeps(written, writes)
    ensures Tidy(written)
  {
    if written == [WHOLE] {
      assert WHOLE in SetOf(written);
    }
  }

  lemma EffectsTidy(m: Module, e: Effects, f: nat, r: FunctionEffects)
    requires f < |m| && IsEffectsOf(m, e, f, r)
    ensures FunctionTidy(r)
  {
    hide Keeps;
    forall p: nat | p < |r.parameters|
      ensures Tidy(r.parameters[p].written)
    {
      KeptIsTidy(r.parameters[p].written, BodyWrites(e, m[f].body, |m[f].body|, p));
    }
  }

  /** How far a parameter is from the most it can come to. */
  ghost function Height(e: ParameterEffects): nat {
    (if WHOLE in e.written then 0 else if |e.written| <= MAX_WRITES then MAX_WRITES + 1 - |e.written| else 1)
    + (if e.escapes then 0 else 1)
  }

  lemma HigherIsNearer(a: ParameterEffects, b: ParameterEffects)
    requires Tidy(a.written) && Tidy(b.written) && ParameterBelow(a, b)
    ensures Height(b) <= Height(a) && (a != b ==> Height(b) < Height(a))
  {
    if WHOLE !in b.written {
      assert WHOLE !in SetOf(b.written);
      assert WHOLE in a.written ==> WHOLE in SetOf(a.written);
      SubsetSize(SetOf(a.written), SetOf(b.written));
      if |a.written| == |b.written| {
        SameSizeSubset(SetOf(a.written), SetOf(b.written));
        OrderedUnique(a.written, b.written);
      }
    } else {
      assert WHOLE in SetOf(b.written);
      assert WHOLE in a.written ==> WHOLE in SetOf(a.written);
    }
  }

  lemma SameSizeSubset<T>(a: set<T>, b: set<T>)
    requires a <= b && |a| == |b|
    ensures a == b
  {
    assert b == a + (b - a);
  }

  ghost function HeightAt(r: FunctionEffects, p: nat): nat {
    if p < |r.parameters| then Height(r.parameters[p]) else if r.elsewhere then 0 else 1
  }

  /** What the iteration has left to rise through. */
  ghost function Gaps(e: Effects): set<(nat, nat, nat)> {
    set f: nat, p: nat, k: nat | f < |e| && p <= |e[f].parameters| && k < HeightAt(e[f], p) :: (f, p, k)
  }

  lemma UpdateClosesGaps(e: Effects, f: nat, r: FunctionEffects)
    requires f < |e| && FunctionTidy(e[f]) && FunctionTidy(r) && FunctionBelow(e[f], r) && r != e[f]
    ensures Gaps(e[f := r]) < Gaps(e)
  {
    hide Height, Tidy;
    forall p: nat | p < |r.parameters|
      ensures Height(r.parameters[p]) <= Height(e[f].parameters[p])
      ensures r.parameters[p] != e[f].parameters[p] ==> Height(r.parameters[p]) < Height(e[f].parameters[p])
    {
      assert ParameterBelow(e[f].parameters[p], r.parameters[p]);
      HigherIsNearer(e[f].parameters[p], r.parameters[p]);
    }
    var p := SomeHigher(e[f], r);
    assert (f, p, HeightAt(r, p)) in Gaps(e) && (f, p, HeightAt(r, p)) !in Gaps(e[f := r]);
  }

  lemma SomeHigher(a: FunctionEffects, b: FunctionEffects) returns (p: nat)
    requires a != b && FunctionBelow(a, b)
    requires forall p: nat | p < |b.parameters| ::
               b.parameters[p] != a.parameters[p] ==> Height(b.parameters[p]) < Height(a.parameters[p])
    ensures p <= |b.parameters| && HeightAt(b, p) < HeightAt(a, p)
  {
    hide Height, ParameterBelow;
    if a.elsewhere != b.elsewhere {
      p := |b.parameters|;
    } else {
      p :| p < |b.parameters| && b.parameters[p] != a.parameters[p];
    }
  }

  ghost predicate AllTidy(e: Effects) {
    forall f: nat | f < |e| :: FunctionTidy(e[f])
  }

  ghost predicate Inv(m: Module, e: Effects) {
    Rises(m, e) && BelowFixpoints(m, e) && AllTidy(e)
  }

  lemma UpdateIsAbove(e: Effects, f: nat, r: FunctionEffects)
    requires f < |e| && FunctionBelow(e[f], r)
    ensures AllBelow(e, e[f := r])
  {
    hide ParameterBelow;
    forall g: nat | g < |e|
      ensures FunctionBelow(e[g], e[f := r][g])
    {
      BelowReflexive(e[g]);
    }
  }

  /** Updating one function keeps everything rising toward the least effects. */
  lemma UpdateKeeps(m: Module, e: Effects, f: nat, r: FunctionEffects)
    requires Inv(m, e) && f < |m| && IsEffectsOf(m, e, f, r)
    ensures Inv(m, e[f := r]) && FunctionBelow(e[f], r)
  {
    hide FunctionBelow, IsEffectsOf, RisesTo, AllBelow, FunctionTidy;
    var after := e[f := r];
    RisesBelow(m, e, f, e[f], r);
    UpdateIsAbove(e, f, r);
    forall g: nat | g < |m|
      ensures RisesTo(m, after, g, after[g])
    {
      if g == f {
        ComputedRises(m, e, f, r);
      }
      RisesToMonotone(m, e, after, g, after[g]);
    }
    forall x | IsFixpoint(m, x)
      ensures AllBelow(after, x)
    {
      EffectsMonotone(m, e, x, f, r, x[f]);
      UpdateBelow(e, x, f, r);
    }
    EffectsTidy(m, e, f, r);
  }

  lemma UpdateBelow(e: Effects, x: Effects, f: nat, r: FunctionEffects)
    requires AllBelow(e, x) && f < |e| && FunctionBelow(r, x[f])
    ensures AllBelow(e[f := r], x)
  {
    hide FunctionBelow;
  }

  /** One pass over the functions, each computed from what is known of all. */
  method Pass(m: Module, given: Effects) returns (e: Effects, changed: bool)
    requires ValidModule(m) && Inv(m, given) && Traced(m, given)
    ensures Inv(m, e) && Traced(m, e)
    ensures if changed then Gaps(e) < Gaps(given) else e == given
    ensures !changed ==> IsFixpoint(m, e)
  {
    hide ValidModule, Inv, IsEffectsOf, Gaps, FunctionBelow, FunctionTidy, FunctionTraced;
    e, changed := given, false;
    InvShaped(m, e);
    for f := 0 to |m|
      invariant Inv(m, e) && Shaped(m, e) && Traced(m, e)
      invariant if changed then Gaps(e) < Gaps(given) else e == given
      invariant !changed ==> forall g: nat | g < f :: IsEffectsOf(m, e, g, e[g])
    {
      var next := EffectsOf(m, e, f);
      if next != e[f] {
        UpdateKeeps(m, e, f, next);
        StepTraced(m, e, f, next);
        EffectsTidy(m, e, f, next);
        InvTidy(m, e, f);
        UpdateClosesGaps(e, f, next);
        e := e[f := next];
        InvShaped(m, e);
        changed := true;
      }
    }
  }

  lemma InvShaped(m: Module, e: Effects)
    requires Inv(m, e)
    ensures Shaped(m, e)
  {
    hide BodyWrites, Escapes, WritesElsewhere, ListBelow;
  }

  lemma InvTidy(m: Module, e: Effects, f: nat)
    requires Inv(m, e) && f < |e|
    ensures FunctionTidy(e[f])
  {
    hide RisesTo, FunctionTidy, AllBelow;
  }

  ghost predicate IsLeast(m: Module, e: Effects) {
    IsFixpoint(m, e) && forall x | IsFixpoint(m, x) :: AllBelow(e, x)
  }

  lemma NothingKnown(m: Module, e: Effects)
    requires |e| == |m|
    requires forall f: nat | f < |m| ::
               e[f] == FunctionEffects(seq(|m[f].parameters|, _ => ParameterEffects([], false)), false)
    ensures Inv(m, e)
  {
    hide BodyWrites, Escapes, WritesElsewhere, IsEffectsOf;
    forall x | IsFixpoint(m, x)
      ensures AllBelow(e, x)
    {
    }
  }

  /** The effects of every function, recursion included: the iteration ends, at the least effects there are. */
  method LeastEffects(m: Module) returns (e: Effects)
    requires ValidModule(m)
    ensures IsLeast(m, e) && SaysWhatCallsDo(m, e)
  {
    hide ValidModule, Inv, IsFixpoint, AllBelow, Gaps, SaysWhatCallsDo;
    e := seq(|m|, f requires 0 <= f < |m| =>
               FunctionEffects(seq(|m[f].parameters|, _ => ParameterEffects([], false)), false));
    NothingKnown(m, e);
    assert Traced(m, e);
    hide Traced;
    var changed := true;
    while changed
      invariant Inv(m, e) && Traced(m, e)
      invariant !changed ==> IsFixpoint(m, e)
      decreases Gaps(e), changed
    {
      e, changed := Pass(m, e);
    }
    LeastAtEnd(m, e);
    EffectsSayWhatCallsDo(m, e);
  }

  lemma LeastAtEnd(m: Module, e: Effects)
    requires Inv(m, e) && IsFixpoint(m, e)
    ensures IsLeast(m, e)
  {
    hide IsFixpoint, AllBelow, RisesTo;
  }

  // ----- no byte written is lost -----------------------------------------------------------------------------------

  /** The byte is one the list accounts for. */
  ghost predicate Covers(written: seq<Written>, byte: int) {
    exists i: nat | i < |written| :: CoversByte(written[i], byte)
  }

  predicate CoversByte(w: Written, byte: int) {
    w == WHOLE || (w.begin <= byte && (byte < w.end || w.end == UNBOUNDED))
  }

  /** The byte is written by a write of `size` bytes at the place. */
  ghost predicate Hits(offset: Option<int>, size: nat, byte: int) {
    offset.None? || (offset.value <= byte && (byte < offset.value + size || size >= UNBOUNDED))
  }

  /** Some activation of `f`, calls nested at most `depth` deep, writes the byte of what its parameter points to. */
  ghost predicate MayWrite(m: Module, depth: nat, f: nat, p: nat, byte: int)
    decreases depth, 2
  {
    f < |m| && exists i: nat | i < |m[f].body| :: MayWriteAt(m, depth, m[f].body[i], p, byte)
  }

  ghost predicate MayWriteAt(m: Module, depth: nat, instruction: Instruction, p: nat, byte: int)
    decreases depth, 1
  {
    match instruction
    case Store(place, size) => Into(place, p) && Hits(place.offset, size, byte)
    case Fill(place, size) => Into(place, p) && Hits(place.offset, size, byte)
    case OpaqueCall(onlyReads, pointers) =>
      !onlyReads && exists q: nat | q < |pointers| :: Into(pointers[q], p) && Hits(pointers[q].offset, UNBOUNDED, byte)
    case Call(callee, arguments) =>
      exists q: nat, inner: int :: WritesThrough(m, depth, callee, arguments, q, p, inner, byte)
    case _ => false
  }

  /** The callee writes a byte through the argument `q`, which points into what `p` points to. */
  ghost predicate WritesThrough(m: Module, depth: nat, callee: nat, arguments: seq<Place>, q: nat, p: nat,
                                inner: int, byte: int)
    decreases depth, 0
  {
    && depth > 0 && callee < |m| && q < |arguments| && q < |m[callee].parameters| && Into(arguments[q], p)
    && MayWrite(m, depth - 1, callee, q, inner)
    && (arguments[q].offset.Some? ==> byte == arguments[q].offset.value + inner)
  }

  ghost predicate SetCovers(writes: set<Written>, byte: int) {
    exists w | w in writes :: CoversByte(w, byte)
  }

  lemma KeptCovers(written: seq<Written>, writes: set<Written>, byte: int)
    requires Keeps(written, writes) && SetCovers(writes, byte)
    ensures Covers(written, byte)
  {
    var w :| w in writes && CoversByte(w, byte);
    if written != [WHOLE] {
      assert w in SetOf(written);
      var i: nat :| i < |written| && written[i] == w;
    } else {
      assert CoversByte(written[0], byte);
    }
  }

  lemma ExtentCovers(offset: Option<int>, size: nat, byte: int)
    requires Hits(offset, size, byte)
    ensures CoversByte(ExtentOf(offset, size), byte)
  {
  }

  lemma ShiftedCovers(offset: Option<int>, w: Written, inner: int, byte: int)
    requires CoversByte(w, inner) && (offset.Some? ==> byte == offset.value + inner)
    ensures CoversByte(Shifted(offset, w), byte)
  {
  }

  lemma {:induction false} InBodyWrites(e: Effects, body: seq<Instruction>, n: nat, i: nat, p: nat, byte: int)
    requires i < n <= |body| && SetCovers(WritesOf(e, body[i], p), byte)
    ensures SetCovers(BodyWrites(e, body, n, p), byte)
  {
    hide WritesOf, CoversByte;
    if i < n - 1 {
      InBodyWrites(e, body, n - 1, i, p, byte);
    }
    var w :| w in (if i < n - 1 then BodyWrites(e, body, n - 1, p) else WritesOf(e, body[i], p)) && CoversByte(w, byte);
    assert w in BodyWrites(e, body, n, p);
  }

  lemma {:induction false} InCallWrites(callee: FunctionEffects, arguments: seq<Place>, n: nat, q: nat, p: nat,
                                        w: Written)
    requires q < n <= |arguments| && q < |callee.parameters| && Into(arguments[q], p)
    requires w in callee.parameters[q].written
    ensures Shifted(arguments[q].offset, w) in CallWrites(callee, arguments, n, p)
  {
    if q < n - 1 {
      InCallWrites(callee, arguments, n - 1, q, p, w);
    }
  }

  lemma {:induction false} InOpaqueWrites(pointers: seq<Place>, n: nat, q: nat, p: nat)
    requires q < n <= |pointers| && Into(pointers[q], p)
    ensures ExtentOf(pointers[q].offset, UNBOUNDED) in OpaqueWrites(pointers, n, p)
  {
    if q < n - 1 {
      InOpaqueWrites(pointers, n - 1, q, p);
    }
  }

  lemma CallCovers(callee: FunctionEffects, arguments: seq<Place>, q: nat, p: nat, inner: int, byte: int)
    requires q < |arguments| && q < |callee.parameters| && Into(arguments[q], p)
    requires Covers(callee.parameters[q].written, inner)
    requires arguments[q].offset.Some? ==> byte == arguments[q].offset.value + inner
    ensures SetCovers(CallWrites(callee, arguments, |arguments|, p), byte)
  {
    hide CoversByte, Shifted;
    var k: nat :| k < |callee.parameters[q].written| && CoversByte(callee.parameters[q].written[k], inner);
    var w := callee.parameters[q].written[k];
    InCallWrites(callee, arguments, |arguments|, q, p, w);
    ShiftedCovers(arguments[q].offset, w, inner, byte);
  }

  /** Every byte some activation may write through a parameter, through any depth of calls, is accounted for. */
  lemma {:induction false} NoWriteLost(m: Module, e: Effects, depth: nat, f: nat, p: nat, byte: int)
    requires IsFixpoint(m, e) && f < |m| && p < |m[f].parameters| && MayWrite(m, depth, f, p, byte)
    ensures Covers(e[f].parameters[p].written, byte)
    decreases depth, 1
  {
    hide Keeps, Covers, SetCovers, BodyWrites, WritesOf, WritesElsewhere, Escapes, MayWriteAt;
    var body := m[f].body;
    var i: nat :| i < |body| && MayWriteAt(m, depth, body[i], p, byte);
    InstructionCovers(m, e, depth, body[i], p, byte);
    InBodyWrites(e, body, |body|, i, p, byte);
    assert IsEffectsOf(m, e, f, e[f]);
    KeptCovers(e[f].parameters[p].written, BodyWrites(e, body, |body|, p), byte);
  }

  lemma {:induction false} InstructionCovers(m: Module, e: Effects, depth: nat, instruction: Instruction, p: nat,
                                             byte: int)
    requires IsFixpoint(m, e) && MayWriteAt(m, depth, instruction, p, byte)
    ensures SetCovers(WritesOf(e, instruction, p), byte)
    decreases depth, 0
  {
    hide IsEffectsOf, CoversByte, Covers, ExtentOf, CallWrites, OpaqueWrites, MayWrite;
    match instruction
    case Store(place, size) => ExtentCovers(place.offset, size, byte);
    case Fill(place, size) => ExtentCovers(place.offset, size, byte);
    case OpaqueCall(_, pointers) =>
      var q: nat :| q < |pointers| && Into(pointers[q], p) && Hits(pointers[q].offset, UNBOUNDED, byte);
      InOpaqueWrites(pointers, |pointers|, q, p);
      ExtentCovers(pointers[q].offset, UNBOUNDED, byte);
    case Call(callee, arguments) =>
      var q: nat, inner: int :| WritesThrough(m, depth, callee, arguments, q, p, inner, byte);
      NoWriteLost(m, e, depth - 1, callee, q, inner);
      CallCovers(e[callee], arguments, q, p, inner, byte);
    case _ =>
  }

  // ----- nothing is made up --------------------------------------------------------------------------------------

  predicate PointsInto(place: Place, p: nat) {
    place.ParameterPlace? && place.index == p
  }

  function Capped(end: nat): nat {
    if end >= UNBOUNDED then UNBOUNDED else end
  }

  /** Within `depth` calls the pointer passed as parameter `p` is kept: at once, handed past the parameters of a callee,
      or handed to a parameter that keeps it. */
  ghost predicate KeptWithin(m: Module, depth: nat, f: nat, p: nat)
    decreases depth, 1
  {
    && f < |m| && p < |m[f].parameters|
    && (m[f].parameters[p].atOnce || exists k: nat :: KeptByCall(m, depth, m[f].parameters[p], k))
  }

  ghost predicate KeptByCall(m: Module, depth: nat, escape: Escape, k: nat)
    decreases depth, 0
  {
    && k < |escape.handedTo| && escape.handedTo[k].0 < |m|
    && (|m[escape.handedTo[k].0].parameters| <= escape.handedTo[k].1
        || (depth > 0 && KeptWithin(m, depth - 1, escape.handedTo[k].0, escape.handedTo[k].1)))
  }

  /** Within `depth` calls the function records a write through parameter `p`, even one of no byte. */
  ghost predicate WritesWithin(m: Module, depth: nat, f: nat, p: nat)
    decreases depth, 1
  {
    f < |m| && exists i: nat | i < |m[f].body| :: WritesAt(m, depth, m[f].body[i], p)
  }

  ghost predicate WritesAt(m: Module, depth: nat, instruction: Instruction, p: nat)
    decreases depth, 0
  {
    match instruction
    case Store(place, _) => PointsInto(place, p)
    case Fill(place, _) => PointsInto(place, p)
    case OpaqueCall(onlyReads, pointers) => !onlyReads && exists q: nat | q < |pointers| :: PointsInto(pointers[q], p)
    case Call(callee, arguments) =>
      depth > 0 && callee < |m| && exists q: nat | q < |arguments| && q < |m[callee].parameters| ::
        PointsInto(arguments[q], p) && WritesWithin(m, depth - 1, callee, q)
    case _ => false
  }

  /** Within `depth` calls the function writes memory no parameter names. */
  ghost predicate ElsewhereWithin(m: Module, depth: nat, f: nat)
    decreases depth, 1
  {
    f < |m| && exists i: nat | i < |m[f].body| :: ElsewhereAt(m, depth, m[f].body[i])
  }

  ghost predicate ElsewhereAt(m: Module, depth: nat, instruction: Instruction)
    decreases depth, 0
  {
    match instruction
    case Store(place, _) => place.UnknownPlace?
    case Fill(place, _) => place.UnknownPlace?
    case OpaqueCall(onlyReads, _) => !onlyReads
    case OtherWrite => true
    case NoWrite => false
    case Call(callee, arguments) =>
      depth > 0 && callee < |m|
      && (ElsewhereWithin(m, depth - 1, callee)
          || exists q: nat | q < |arguments| && q < |m[callee].parameters| ::
               arguments[q].UnknownPlace? && WritesWithin(m, depth - 1, callee, q))
  }

  /** Within `depth` calls the function makes this write through parameter `p`, at a place it names. */
  ghost predicate DerivedWithin(m: Module, depth: nat, f: nat, p: nat, w: Written)
    decreases depth, 1
  {
    f < |m| && exists i: nat | i < |m[f].body| :: DerivedAt(m, depth, m[f].body[i], p, w)
  }

  ghost predicate IsExtent(offset: Option<int>, size: nat, w: Written) {
    offset.Some? && 0 <= offset.value == w.begin && w.end == Capped(w.begin + size)
  }

  ghost predicate DerivedAt(m: Module, depth: nat, instruction: Instruction, p: nat, w: Written)
    decreases depth, 0
  {
    match instruction
    case Store(place, size) => PointsInto(place, p) && IsExtent(place.offset, size, w)
    case Fill(place, size) => PointsInto(place, p) && IsExtent(place.offset, size, w)
    case OpaqueCall(onlyReads, pointers) =>
      !onlyReads && exists q: nat | q < |pointers| :: PointsInto(pointers[q], p) && IsExtent(pointers[q].offset, UNBOUNDED, w)
    case Call(callee, arguments) =>
      depth > 0 && callee < |m| && exists q: nat, inner | q < |arguments| && q < |m[callee].parameters| ::
        && PointsInto(arguments[q], p) && DerivedWithin(m, depth - 1, callee, q, inner)
        && IsMoved(arguments[q].offset, inner, w)
    case _ => false
  }

  /** A bounded write of the callee, where the argument puts it. */
  ghost predicate IsMoved(offset: Option<int>, inner: Written, w: Written) {
    && inner.begin <= inner.end && inner.end != UNBOUNDED && offset.Some? && w.begin == offset.value + inner.begin
    && w.end == Capped(w.begin + (inner.end - inner.begin))
  }

  ghost predicate Derived(m: Module, f: nat, p: nat, w: Written) {
    exists depth: nat :: DerivedWithin(m, depth, f, p, w)
  }

  /** More distinct writes than are kept. */
  ghost predicate PassesCap(m: Module, f: nat, p: nat) {
    exists writes: set<Written> :: |writes| > 8 && forall w | w in writes :: Derived(m, f, p, w)
  }

  /** Within `depth` calls a write comes to cover the whole object: past the cap, at an unknown or negative place, of
      unknown extent from the start, or through a callee's write of unknown extent. */
  ghost predicate WholeWithin(m: Module, depth: nat, f: nat, p: nat)
    decreases depth, 1
  {
    f < |m| && (PassesCap(m, f, p) || exists i: nat | i < |m[f].body| :: WholeAt(m, depth, m[f].body[i], p))
  }

  ghost predicate IsWholeExtent(offset: Option<int>, size: nat) {
    offset.None? || offset.value < 0 || (offset.value == 0 && size >= UNBOUNDED)
  }

  ghost predicate MovesToWhole(offset: Option<int>, inner: Written) {
    || inner.end == UNBOUNDED || inner.end < inner.begin
    || IsWholeExtent(if offset.Some? then Some(offset.value + inner.begin) else None, inner.end - inner.begin)
  }

  ghost predicate WholeAt(m: Module, depth: nat, instruction: Instruction, p: nat)
    decreases depth, 0
  {
    match instruction
    case Store(place, size) => PointsInto(place, p) && IsWholeExtent(place.offset, size)
    case Fill(place, size) => PointsInto(place, p) && IsWholeExtent(place.offset, size)
    case OpaqueCall(onlyReads, pointers) =>
      !onlyReads && exists q: nat | q < |pointers| :: PointsInto(pointers[q], p) && IsWholeExtent(pointers[q].offset, UNBOUNDED)
    case Call(callee, arguments) =>
      depth > 0 && callee < |m| && exists q: nat | q < |arguments| && q < |m[callee].parameters| ::
        && PointsInto(arguments[q], p)
        && (WholeWithin(m, depth - 1, callee, q)
            || exists inner :: DerivedWithin(m, depth - 1, callee, q, inner) && MovesToWhole(arguments[q].offset, inner))
    case _ => false
  }

  ghost predicate SomeKept(m: Module, f: nat, p: nat) {
    exists depth: nat :: KeptWithin(m, depth, f, p)
  }

  ghost predicate SomeWritten(m: Module, f: nat, p: nat) {
    exists depth: nat :: WritesWithin(m, depth, f, p)
  }

  ghost predicate SomeElsewhere(m: Module, f: nat) {
    exists depth: nat :: ElsewhereWithin(m, depth, f)
  }

  ghost predicate SomeWhole(m: Module, f: nat, p: nat) {
    exists depth: nat :: WholeWithin(m, depth, f, p)
  }

  /** Every write in the list is one some chain of calls makes. */
  ghost predicate WritesTraced(m: Module, f: nat, p: nat, written: seq<Written>) {
    && (written != [] ==> SomeWritten(m, f, p))
    && (forall w | w in written :: if w == WHOLE then SomeWhole(m, f, p) else Derived(m, f, p, w))
  }

  ghost predicate FunctionTraced(m: Module, f: nat, x: FunctionEffects) {
    && (x.elsewhere ==> SomeElsewhere(m, f))
    && forall p: nat | p < |x.parameters| ::
         WritesTraced(m, f, p, x.parameters[p].written) && (x.parameters[p].escapes ==> SomeKept(m, f, p))
  }

  ghost predicate Traced(m: Module, e: Effects) {
    forall f: nat | f < |e| :: FunctionTraced(m, f, e[f])
  }

  // ----- one step of the iteration makes nothing up ----------------------------------------------------------------

  lemma EscapeTraced(m: Module, e: Effects, f: nat, p: nat)
    requires ValidModule(m) && Shaped(m, e) && Traced(m, e) && f < |m| && p < |m[f].parameters|
    requires Escapes(e, m[f].parameters[p])
    ensures SomeKept(m, f, p)
  {
    hide ValidInstruction, WritesTraced, SomeElsewhere;
    var escape := m[f].parameters[p];
    if escape.atOnce {
      assert KeptWithin(m, 0, f, p);
    } else {
      var k: nat :| k < |escape.handedTo| && KeepsPointer(e, escape.handedTo[k]);
      var g, q := escape.handedTo[k].0, escape.handedTo[k].1;
      if q >= |m[g].parameters| {
        assert KeptByCall(m, 0, escape, k);
        assert KeptWithin(m, 0, f, p);
      } else {
        assert FunctionTraced(m, g, e[g]);
        var depth: nat :| KeptWithin(m, depth, g, q);
        assert KeptByCall(m, depth + 1, escape, k);
        assert KeptWithin(m, depth + 1, f, p);
      }
    }
  }

  lemma ElsewhereTraced(m: Module, e: Effects, f: nat, i: nat)
    requires Shaped(m, e) && Traced(m, e) && f < |m| && i < |m[f].body| && WritesElsewhere(e, m[f].body[i])
    ensures SomeElsewhere(m, f)
  {
    hide SomeKept, WritesWithin, Derived, SomeWhole;
    var instruction := m[f].body[i];
    var depth: nat := 0;
    if instruction.Call? {
      var callee, arguments := instruction.callee, instruction.arguments;
      assert FunctionTraced(m, callee, e[callee]);
      if e[callee].elsewhere {
        var inner: nat :| ElsewhereWithin(m, inner, callee);
        depth := inner + 1;
      } else {
        var q: nat :| q < |arguments| && ArgumentElsewhere(e[callee], arguments, q);
        assert WritesTraced(m, callee, q, e[callee].parameters[q].written);
        var inner: nat :| WritesWithin(m, inner, callee, q);
        depth := inner + 1;
      }
    }
    assert ElsewhereAt(m, depth, instruction);
    assert ElsewhereWithin(m, depth, f);
  }

  lemma {:induction false} FromBody(e: Effects, body: seq<Instruction>, n: nat, p: nat, w: Written) returns (i: nat)
    requires n <= |body| && w in BodyWrites(e, body, n, p)
    ensures i < n && w in WritesOf(e, body[i], p)
  {
    hide WritesOf;
    if w in WritesOf(e, body[n - 1], p) {
      i := n - 1;
    } else {
      i := FromBody(e, body, n - 1, p, w);
    }
  }

  lemma {:induction false} FromCall(callee: FunctionEffects, arguments: seq<Place>, n: nat, p: nat, w: Written)
    returns (q: nat, inner: Written)
    requires n <= |arguments| && w in CallWrites(callee, arguments, n, p)
    ensures q < n && q < |callee.parameters| && PointsInto(arguments[q], p)
    ensures inner in callee.parameters[q].written && w == Shifted(arguments[q].offset, inner)
  {
    hide Shifted;
    if n - 1 < |callee.parameters| && Into(arguments[n - 1], p)
       && w in ShiftedWrites(arguments[n - 1].offset, callee.parameters[n - 1].written)
    {
      q := n - 1;
      inner :| inner in callee.parameters[q].written && w == Shifted(arguments[q].offset, inner);
    } else {
      q, inner := FromCall(callee, arguments, n - 1, p, w);
    }
  }

  lemma {:induction false} FromOpaque(pointers: seq<Place>, n: nat, p: nat, w: Written) returns (q: nat)
    requires n <= |pointers| && w in OpaqueWrites(pointers, n, p)
    ensures q < n && PointsInto(pointers[q], p) && w == ExtentOf(pointers[q].offset, UNBOUNDED)
  {
    hide ExtentOf;
    if Into(pointers[n - 1], p) && w == ExtentOf(pointers[n - 1].offset, UNBOUNDED) {
      q := n - 1;
    } else {
      q := FromOpaque(pointers, n - 1, p, w);
    }
  }

  lemma ExtentMeans(offset: Option<int>, size: nat)
    ensures var w := ExtentOf(offset, size); if w == WHOLE then IsWholeExtent(offset, size) else IsExtent(offset, size, w)
  {
  }

  lemma ShiftedMeans(offset: Option<int>, inner: Written)
    ensures var w := Shifted(offset, inner);
            if w == WHOLE then MovesToWhole(offset, inner) else IsMoved(offset, inner, w)
  {
  }

  /** What an instruction contributes is made within some depth of calls. */
  lemma InstructionTraced(m: Module, e: Effects, f: nat, i: nat, p: nat, w: Written)
    requires Shaped(m, e) && Traced(m, e) && f < |m| && i < |m[f].body| && w in WritesOf(e, m[f].body[i], p)
    ensures SomeWritten(m, f, p) && if w == WHOLE then SomeWhole(m, f, p) else Derived(m, f, p, w)
  {
    hide SomeKept, SomeElsewhere, PassesCap, ExtentOf, Shifted, CallWrites, OpaqueWrites, Traced, Shaped;
    var instruction := m[f].body[i];
    match instruction
    case Store(place, size) =>
      ExtentMeans(place.offset, size);
      TracedAt(m, 0, f, i, p, w);
    case Fill(place, size) =>
      ExtentMeans(place.offset, size);
      TracedAt(m, 0, f, i, p, w);
    case OpaqueCall(_, pointers) =>
      var q := FromOpaque(pointers, |pointers|, p, w);
      ExtentMeans(pointers[q].offset, UNBOUNDED);
      TracedAt(m, 0, f, i, p, w);
    case Call(callee, arguments) =>
      var q, inner := FromCall(e[callee], arguments, |arguments|, p, w);
      CallTraced(m, e, f, i, p, w, q, inner);
    case _ =>
  }

  lemma TracedAt(m: Module, depth: nat, f: nat, i: nat, p: nat, w: Written)
    requires f < |m| && i < |m[f].body| && WritesAt(m, depth, m[f].body[i], p)
    requires if w == WHOLE then WholeAt(m, depth, m[f].body[i], p) else DerivedAt(m, depth, m[f].body[i], p, w)
    ensures SomeWritten(m, f, p) && if w == WHOLE then SomeWhole(m, f, p) else Derived(m, f, p, w)
  {
    hide WritesAt, WholeAt, DerivedAt, PassesCap;
    assert WritesWithin(m, depth, f, p);
    assert w == WHOLE ==> WholeWithin(m, depth, f, p);
    assert w != WHOLE ==> DerivedWithin(m, depth, f, p, w);
  }

  lemma CallTraced(m: Module, e: Effects, f: nat, i: nat, p: nat, w: Written, q: nat, inner: Written)
    requires Shaped(m, e) && Traced(m, e) && f < |m| && i < |m[f].body| && m[f].body[i].Call?
    requires m[f].body[i].callee < |e| && q < |m[f].body[i].arguments| && q < |e[m[f].body[i].callee].parameters|
    requires PointsInto(m[f].body[i].arguments[q], p) && inner in e[m[f].body[i].callee].parameters[q].written
    requires w == Shifted(m[f].body[i].arguments[q].offset, inner)
    ensures SomeWritten(m, f, p) && if w == WHOLE then SomeWhole(m, f, p) else Derived(m, f, p, w)
  {
    hide SomeKept, SomeElsewhere, PassesCap, WholeAt, DerivedAt, WritesAt, Shifted;
    var callee := m[f].body[i].callee;
    assert FunctionTraced(m, callee, e[callee]);
    assert WritesTraced(m, callee, q, e[callee].parameters[q].written);
    var a: nat :| WritesWithin(m, a, callee, q);
    ShiftedMeans(m[f].body[i].arguments[q].offset, inner);
    WritesDeeper(m, a, f, i, p, q);
    if inner == WHOLE {
      assert w == WHOLE by { WholeStaysWhole(m[f].body[i].arguments[q].offset); }
      var b: nat :| WholeWithin(m, b, callee, q);
      WholeDeeper(m, b, f, i, p, q);
    } else {
      var b: nat :| DerivedWithin(m, b, callee, q, inner);
      DerivedDeeper(m, b, f, i, p, q, inner, w);
    }
  }

  lemma WholeStaysWhole(offset: Option<int>)
    ensures Shifted(offset, WHOLE) == WHOLE
  {
  }

  lemma WritesDeeper(m: Module, depth: nat, f: nat, i: nat, p: nat, q: nat)
    requires f < |m| && i < |m[f].body| && m[f].body[i].Call? && m[f].body[i].callee < |m|
    requires q < |m[f].body[i].arguments| && q < |m[m[f].body[i].callee].parameters| && PointsInto(m[f].body[i].arguments[q], p)
    requires WritesWithin(m, depth, m[f].body[i].callee, q)
    ensures SomeWritten(m, f, p)
  {
    assert WritesAt(m, depth + 1, m[f].body[i], p);
    assert WritesWithin(m, depth + 1, f, p);
  }

  lemma WholeDeeper(m: Module, depth: nat, f: nat, i: nat, p: nat, q: nat)
    requires f < |m| && i < |m[f].body| && m[f].body[i].Call? && m[f].body[i].callee < |m|
    requires q < |m[f].body[i].arguments| && q < |m[m[f].body[i].callee].parameters| && PointsInto(m[f].body[i].arguments[q], p)
    requires WholeWithin(m, depth, m[f].body[i].callee, q)
    ensures SomeWhole(m, f, p)
  {
    hide PassesCap, MovesToWhole;
    assert WholeAt(m, depth + 1, m[f].body[i], p);
    assert WholeWithin(m, depth + 1, f, p);
  }

  lemma DerivedDeeper(m: Module, depth: nat, f: nat, i: nat, p: nat, q: nat, inner: Written, w: Written)
    requires f < |m| && i < |m[f].body| && m[f].body[i].Call? && m[f].body[i].callee < |m|
    requires q < |m[f].body[i].arguments| && q < |m[m[f].body[i].callee].parameters| && PointsInto(m[f].body[i].arguments[q], p)
    requires DerivedWithin(m, depth, m[f].body[i].callee, q, inner)
    requires if w == WHOLE then MovesToWhole(m[f].body[i].arguments[q].offset, inner)
             else IsMoved(m[f].body[i].arguments[q].offset, inner, w)
    ensures if w == WHOLE then SomeWhole(m, f, p) else Derived(m, f, p, w)
  {
    hide PassesCap, MovesToWhole, IsMoved;
    if w == WHOLE {
      assert WholeAt(m, depth + 1, m[f].body[i], p);
      assert WholeWithin(m, depth + 1, f, p);
    } else {
      assert DerivedAt(m, depth + 1, m[f].body[i], p, w);
      assert DerivedWithin(m, depth + 1, f, p, w);
    }
  }

  lemma WrittenTraced(m: Module, e: Effects, f: nat, p: nat, written: seq<Written>)
    requires Shaped(m, e) && Traced(m, e) && f < |m|
    requires Keeps(written, BodyWrites(e, m[f].body, |m[f].body|, p))
    ensures WritesTraced(m, f, p, written)
  {
    hide Shaped, Traced, WritesOf, BodyWrites, SomeWritten, Derived;
    var body := m[f].body;
    var writes := BodyWrites(e, body, |body|, p);
    forall w | w in writes
      ensures SomeWritten(m, f, p) && if w == WHOLE then SomeWhole(m, f, p) else Derived(m, f, p, w)
    {
      var i := FromBody(e, body, |body|, p, w);
      InstructionTraced(m, e, f, i, p, w);
    }
    if WHOLE !in writes && |writes| > MAX_WRITES {
      assert PassesCap(m, f, p);
      assert WholeWithin(m, 0, f, p);
      var w :| w in writes;
    } else {
      assert forall w | w in written :: w in SetOf(written);
    }
  }

  lemma StepTraced(m: Module, e: Effects, f: nat, r: FunctionEffects)
    requires ValidModule(m) && Shaped(m, e) && Traced(m, e) && f < |m| && IsEffectsOf(m, e, f, r)
    ensures FunctionTraced(m, f, r)
  {
    hide ValidModule, Shaped, Traced, WritesTraced, SomeKept, SomeElsewhere, Keeps, BodyWrites, Escapes, WritesElsewhere;
    forall p: nat | p < |r.parameters|
      ensures WritesTraced(m, f, p, r.parameters[p].written) && (r.parameters[p].escapes ==> SomeKept(m, f, p))
    {
      WrittenTraced(m, e, f, p, r.parameters[p].written);
      if r.parameters[p].escapes {
        EscapeTraced(m, e, f, p);
      }
    }
    if r.elsewhere {
      var i: nat :| i < |m[f].body| && WritesElsewhere(e, m[f].body[i]);
      ElsewhereTraced(m, e, f, i);
    }
  }

  // ----- and nothing is lost: the effects, exactly -----------------------------------------------------------------

  /** The effects are exactly what chains of calls of any depth do: each flag, each list while it is kept write by write,
      and the whole object only when some write comes to it. */
  ghost predicate SaysWhatCallsDo(m: Module, e: Effects) {
    && Shaped(m, e)
    && (forall f: nat | f < |m| :: e[f].elsewhere <==> SomeElsewhere(m, f))
    && (forall f: nat, p: nat | f < |m| && p < |m[f].parameters| :: e[f].parameters[p].escapes <==> SomeKept(m, f, p))
    && (forall f: nat, p: nat | f < |m| && p < |m[f].parameters| :: ListSays(m, f, p, e[f].parameters[p].written))
  }

  ghost predicate ListSays(m: Module, f: nat, p: nat, written: seq<Written>) {
    && (written != [] <==> SomeWritten(m, f, p))
    && (WHOLE in written ==> written == [WHOLE] && SomeWhole(m, f, p))
    && (WHOLE !in written ==> forall w :: w in written <==> Derived(m, f, p, w))
  }

  lemma {:induction false} KeptEscapes(m: Module, e: Effects, depth: nat, f: nat, p: nat)
    requires IsFixpoint(m, e) && KeptWithin(m, depth, f, p)
    ensures e[f].parameters[p].escapes
    decreases depth
  {
    hide Keeps, BodyWrites, WritesElsewhere;
    assert IsEffectsOf(m, e, f, e[f]);
    var escape := m[f].parameters[p];
    if !escape.atOnce {
      var k: nat :| KeptByCall(m, depth, escape, k);
      var g, q := escape.handedTo[k].0, escape.handedTo[k].1;
      if q < |m[g].parameters| {
        KeptEscapes(m, e, depth - 1, g, q);
      }
      assert KeepsPointer(e, escape.handedTo[k]);
    }
  }

  lemma {:induction false} WrittenIsListed(m: Module, e: Effects, depth: nat, f: nat, p: nat)
    requires IsFixpoint(m, e) && WritesWithin(m, depth, f, p) && p < |m[f].parameters|
    ensures e[f].parameters[p].written != []
    decreases depth
  {
    hide Escapes, WritesElsewhere, Shifted, ExtentOf;
    assert IsEffectsOf(m, e, f, e[f]);
    var body := m[f].body;
    var i: nat :| i < |body| && WritesAt(m, depth, body[i], p);
    var w := SomeWrite(m, e, depth, f, i, p);
    hide BodyWrites, WritesOf, WritesAt;
    assert w in BodyWrites(e, body, |body|, p) by {
      ContributesToBody(e, body, |body|, i, p, w);
    }
    assert SetOf([]) == {};
  }

  lemma {:induction false} ContributesToBody(e: Effects, body: seq<Instruction>, n: nat, i: nat, p: nat, w: Written)
    requires i < n <= |body| && w in WritesOf(e, body[i], p)
    ensures w in BodyWrites(e, body, n, p)
  {
    hide WritesOf;
    if i < n - 1 {
      ContributesToBody(e, body, n - 1, i, p, w);
    }
  }

  lemma SomeWrite(m: Module, e: Effects, depth: nat, f: nat, i: nat, p: nat) returns (w: Written)
    requires IsFixpoint(m, e) && f < |m| && i < |m[f].body| && WritesAt(m, depth, m[f].body[i], p)
    ensures w in WritesOf(e, m[f].body[i], p)
    decreases depth, 0
  {
    hide IsEffectsOf, Shifted, ExtentOf, WritesWithin, CallWrites, OpaqueWrites;
    match m[f].body[i]
    case Store(place, size) => w := ExtentOf(place.offset, size);
    case Fill(place, size) => w := ExtentOf(place.offset, size);
    case OpaqueCall(_, pointers) =>
      var q: nat :| q < |pointers| && PointsInto(pointers[q], p);
      InOpaqueWrites(pointers, |pointers|, q, p);
      w := ExtentOf(pointers[q].offset, UNBOUNDED);
    case Call(callee, arguments) =>
      var q: nat :| q < |arguments| && q < |m[callee].parameters| && PointsInto(arguments[q], p)
                    && WritesWithin(m, depth - 1, callee, q);
      WrittenIsListed(m, e, depth - 1, callee, q);
      var inner := e[callee].parameters[q].written[0];
      InCallWrites(e[callee], arguments, |arguments|, q, p, inner);
      w := Shifted(arguments[q].offset, inner);
    case _ =>
  }

  lemma {:induction false} ElsewhereIsSaid(m: Module, e: Effects, depth: nat, f: nat)
    requires IsFixpoint(m, e) && ElsewhereWithin(m, depth, f)
    ensures e[f].elsewhere
    decreases depth
  {
    hide Keeps, BodyWrites, Escapes, WritesWithin;
    assert IsEffectsOf(m, e, f, e[f]);
    var i: nat :| i < |m[f].body| && ElsewhereAt(m, depth, m[f].body[i]);
    var instruction := m[f].body[i];
    if instruction.Call? {
      var callee, arguments := instruction.callee, instruction.arguments;
      if ElsewhereWithin(m, depth - 1, callee) {
        ElsewhereIsSaid(m, e, depth - 1, callee);
      } else {
        var q: nat :| q < |arguments| && q < |m[callee].parameters| && arguments[q].UnknownPlace?
                      && WritesWithin(m, depth - 1, callee, q);
        WrittenIsListed(m, e, depth - 1, callee, q);
        assert ArgumentElsewhere(e[callee], arguments, q);
      }
    }
    assert WritesElsewhere(e, instruction);
  }

  lemma ExtentFrom(offset: Option<int>, size: nat, w: Written)
    requires IsExtent(offset, size, w)
    ensures ExtentOf(offset, size) == w
  {
  }

  lemma MovedFrom(offset: Option<int>, inner: Written, w: Written)
    requires IsMoved(offset, inner, w)
    ensures Shifted(offset, inner) == w
  {
  }

  /** A write some chain makes is in the list, or the list is the whole object. */
  lemma {:induction false} DerivedIsListed(m: Module, e: Effects, depth: nat, f: nat, p: nat, w: Written)
    requires IsFixpoint(m, e) && DerivedWithin(m, depth, f, p, w) && p < |m[f].parameters|
    ensures w in e[f].parameters[p].written || e[f].parameters[p].written == [WHOLE]
    decreases depth, 1
  {
    hide Escapes, WritesElsewhere, BodyWrites, WritesOf, DerivedAt;
    assert IsEffectsOf(m, e, f, e[f]);
    var body := m[f].body;
    var i: nat :| i < |body| && DerivedAt(m, depth, body[i], p, w);
    var x := DerivedContributes(m, e, depth, f, i, p, w);
    ContributesToBody(e, body, |body|, i, p, x);
    assert Keeps(e[f].parameters[p].written, BodyWrites(e, body, |body|, p));
    if e[f].parameters[p].written != [WHOLE] {
      assert x in SetOf(e[f].parameters[p].written);
    }
  }

  lemma DerivedContributes(m: Module, e: Effects, depth: nat, f: nat, i: nat, p: nat, w: Written) returns (x: Written)
    requires IsFixpoint(m, e) && f < |m| && i < |m[f].body| && DerivedAt(m, depth, m[f].body[i], p, w)
    ensures x in WritesOf(e, m[f].body[i], p) && (x == w || x == WHOLE)
    decreases depth, 0
  {
    hide IsEffectsOf, Shifted, ExtentOf, DerivedWithin, CallWrites, OpaqueWrites, IsMoved, IsExtent;
    match m[f].body[i]
    case Store(place, size) =>
      ExtentFrom(place.offset, size, w);
      x := w;
    case Fill(place, size) =>
      ExtentFrom(place.offset, size, w);
      x := w;
    case OpaqueCall(_, pointers) =>
      var q: nat :| q < |pointers| && PointsInto(pointers[q], p) && IsExtent(pointers[q].offset, UNBOUNDED, w);
      ExtentFrom(pointers[q].offset, UNBOUNDED, w);
      InOpaqueWrites(pointers, |pointers|, q, p);
      x := w;
    case Call(callee, arguments) =>
      var q: nat, inner :| q < |arguments| && q < |m[callee].parameters| && PointsInto(arguments[q], p)
        && DerivedWithin(m, depth - 1, callee, q, inner) && IsMoved(arguments[q].offset, inner, w);
      DerivedIsListed(m, e, depth - 1, callee, q, inner);
      MovedFrom(arguments[q].offset, inner, w);
      WholeStaysWhole(arguments[q].offset);
      var listed := if inner in e[callee].parameters[q].written then inner else WHOLE;
      InCallWrites(e[callee], arguments, |arguments|, q, p, listed);
      x := Shifted(arguments[q].offset, listed);
    case _ =>
  }

  lemma ListIsSaid(m: Module, e: Effects, f: nat, p: nat)
    requires IsFixpoint(m, e) && Traced(m, e) && f < |m| && p < |m[f].parameters|
    ensures ListSays(m, f, p, e[f].parameters[p].written)
  {
    hide BodyWrites, Escapes, WritesElsewhere, WritesWithin, DerivedWithin, WholeWithin;
    var written := e[f].parameters[p].written;
    assert FunctionTraced(m, f, e[f]) && WritesTraced(m, f, p, written);
    assert IsEffectsOf(m, e, f, e[f]);
    assert WHOLE in written ==> WHOLE in SetOf(written);
    if depth: nat :| WritesWithin(m, depth, f, p) {
      WrittenIsListed(m, e, depth, f, p);
    }
    forall w | Derived(m, f, p, w)
      ensures w in written || written == [WHOLE]
    {
      var depth: nat :| DerivedWithin(m, depth, f, p, w);
      DerivedIsListed(m, e, depth, f, p, w);
    }
  }

  lemma EffectsSayWhatCallsDo(m: Module, e: Effects)
    requires IsFixpoint(m, e) && Traced(m, e)
    ensures SaysWhatCallsDo(m, e)
  {
    hide IsEffectsOf, ListSays, KeptWithin, ElsewhereWithin, WritesTraced;
    forall f: nat | f < |m|
      ensures e[f].elsewhere <==> SomeElsewhere(m, f)
    {
      assert FunctionTraced(m, f, e[f]);
      if depth: nat :| ElsewhereWithin(m, depth, f) {
        ElsewhereIsSaid(m, e, depth, f);
      }
    }
    forall f: nat, p: nat | f < |m| && p < |m[f].parameters|
      ensures e[f].parameters[p].escapes <==> SomeKept(m, f, p)
      ensures ListSays(m, f, p, e[f].parameters[p].written)
    {
      assert FunctionTraced(m, f, e[f]);
      if depth: nat :| KeptWithin(m, depth, f, p) {
        KeptEscapes(m, e, depth, f, p);
      }
      ListIsSaid(m, e, f, p);
    }
  }
}
