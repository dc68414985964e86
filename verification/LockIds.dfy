/** How a lock is named after the object it lies in, and how such a name is read back. */
module LockIds {
  import opened MemoryRegions
  import opened ControlFlow

  const PARAMETER_LOCK_PREFIX := "%arg"
  const UNKNOWN_INDEX := "[*]"
  const UINT32_RANGE: nat := 0x1_0000_0000
  const UINT64_RANGE: nat := 0x1_0000_0000_0000_0000
  const INT64_LOW: int := -0x8000_0000_0000_0000
  const INT64_HIGH: int := 0x7fff_ffff_ffff_ffff

  predicate IsInt64(v: int) {
    INT64_LOW <= v <= INT64_HIGH
  }

  // ----- decimal numbers ---------------------------------------------------------------------------

  predicate IsDigit(c: char) {
    '0' <= c <= '9'
  }

  predicate AllDigits(s: string) {
    forall i | 0 <= i < |s| :: IsDigit(s[i])
  }

  function DigitOf(n: nat): char
    requires n < 10
  {
    (n as char) + '0'
  }

  function Digits(n: nat): (s: string)
    ensures s != [] && AllDigits(s)
  {
    if n < 10 then [DigitOf(n)] else Digits(n / 10) + [DigitOf(n % 10)]
  }

  function ValueOf(s: string): nat
    requires AllDigits(s)
  {
    if s == [] then 0 else ValueOf(s[..|s| - 1]) * 10 + (s[|s| - 1] - '0') as nat
  }

  lemma {:induction false} DigitsReadBack(n: nat)
    ensures ValueOf(Digits(n)) == n
  {
    var s := Digits(n);
    if n < 10 {
      assert s[..0] == [];
    } else {
      DigitsReadBack(n / 10);
      assert s[..|s| - 1] == Digits(n / 10);
    }
  }

  /** `std::to_string` of a signed number. */
  function Printed(v: int): (s: string)
    ensures s != [] && IsDigit(s[|s| - 1])
  {
    if v < 0 then "-" + Digits(-v) else Digits(v)
  }

  /** `std::from_chars` reading the whole string as a signed 64-bit number. */
  function WholeInt64(s: string): Option<int> {
    var negative := s != [] && s[0] == '-';
    var digits := if negative then s[1..] else s;
    if digits == [] || !AllDigits(digits) then None
    else
      var v: int := if negative then -(ValueOf(digits) as int) else ValueOf(digits);
      if IsInt64(v) then Some(v) else None
  }

  lemma PrintedReadsBack(v: int)
    requires IsInt64(v)
    ensures WholeInt64(Printed(v)) == Some(v)
  {
    DigitsReadBack(if v < 0 then -v else v);
  }

  function DigitPrefix(s: string): (n: nat)
    ensures n <= |s| && AllDigits(s[..n]) && (n < |s| ==> !IsDigit(s[n]))
  {
    if s == [] || !IsDigit(s[0]) then 0
    else
      var n := 1 + DigitPrefix(s[1..]);
      assert s[..n] == [s[0]] + s[1..][..n - 1];
      n
  }

  lemma {:induction false} DigitPrefixOf(digits: string, rest: string)
    requires AllDigits(digits) && (rest != [] ==> !IsDigit(rest[0]))
    ensures DigitPrefix(digits + rest) == |digits|
  {
    var s := digits + rest;
    var n := DigitPrefix(s);
    assert forall i | 0 <= i < |digits| :: s[i] == digits[i];
    assert forall i | 0 <= i < n :: s[i] == s[..n][i];
    assert rest != [] ==> s[|digits|] == rest[0];
  }

  predicate IsSpace(c: char) {
    c == ' ' || c == '\t' || c == '\n' || c == '\U{0B}' || c == '\U{0C}' || c == '\r'
  }

  /** `std::stoll`: blanks, a sign, digits, whatever follows ignored; none when it throws. */
  function LeadingInt64(s: string): Option<int>
    decreases |s|
  {
    if s != [] && IsSpace(s[0]) then LeadingInt64(s[1..])
    else
      var signed := s != [] && (s[0] == '-' || s[0] == '+');
      var rest := if signed then s[1..] else s;
      var n := DigitPrefix(rest);
      if n == 0 then None
      else
        var v: int := if signed && s[0] == '-' then -(ValueOf(rest[..n]) as int) else ValueOf(rest[..n]);
        if IsInt64(v) then Some(v) else None
  }

  lemma PrintedLeads(v: int)
    requires IsInt64(v)
    ensures LeadingInt64(Printed(v)) == Some(v)
  {
    var digits := Digits(if v < 0 then -v else v);
    DigitsReadBack(if v < 0 then -v else v);
    DigitPrefixOf(digits, []);
    assert digits + [] == digits && digits[..|digits|] == digits;
    assert IsDigit(digits[0]);
    if v < 0 {
      assert Printed(v)[1..] == digits;
    }
  }

  // ----- naming a lock -----------------------------------------------------------------------------

  /** The object a lock lies in: a named one, or what a parameter points at. */
  datatype Root = Global(symbol: string) | Argument(index: nat)

  datatype RootBinding = RootBinding(root: Root, region: MemoryRegion)

  /** A place of unknown extent inside an object. */
  function At(known: bool, offset: int): MemoryRegion {
    MemoryRegion(known, offset, 0, NoOwner, "")
  }

  function Suffix(known: bool, offset: int): string {
    if !known then UNKNOWN_INDEX else if offset == 0 then "" else "+" + Printed(offset)
  }

  function LockIdAt(owner: RootBinding, place: MemoryRegion): string {
    var known := owner.region.hasKnownOffset && place.hasKnownOffset;
    var offset := owner.region.byteOffset + place.byteOffset;
    match owner.root
    case Argument(index) => PARAMETER_LOCK_PREFIX + Digits(index) + Suffix(known, offset)
    case Global(symbol) => symbol + Suffix(known, offset)
  }

  // ----- reading a name back -----------------------------------------------------------------------

  datatype PlaceResult = NoPlace | Place(index: nat, place: MemoryRegion) | Throws

  function ParameterLockPlace(lockId: string): PlaceResult {
    if !(PARAMETER_LOCK_PREFIX <= lockId) then NoPlace
    else
      var rest := lockId[|PARAMETER_LOCK_PREFIX|..];
      var n := DigitPrefix(rest);
      if n == 0 then NoPlace
      else if ValueOf(rest[..n]) >= UINT64_RANGE then Throws
      else
        var index, suffix := ValueOf(rest[..n]) % UINT32_RANGE, rest[n..];
        if suffix == UNKNOWN_INDEX then Place(index, At(false, 0))
        else if suffix != [] && suffix[0] == '+' then
          match LeadingInt64(suffix[1..])
          case Some(offset) => Place(index, At(true, offset))
          case None => Throws
        else if suffix == [] then Place(index, At(true, 0))
        else NoPlace
  }

  predicate EndsWith(s: string, suffix: string) {
    |suffix| <= |s| && s[|s| - |suffix|..] == suffix
  }

  /** The position of the last sign, or of the end. */
  function LastPlus(s: string): (n: nat)
    ensures n <= |s|
  {
    if s == [] then 0
    else if s[|s| - 1] == '+' then |s| - 1
    else
      var n := LastPlus(s[..|s| - 1]);
      if n == |s| - 1 then |s| else n
  }

  /** What a name that is no parameter's says of a global: its symbol and the place in it. */
  function GlobalPlace(lockId: string): RootBinding {
    if EndsWith(lockId, UNKNOWN_INDEX) then
      RootBinding(Global(lockId[..|lockId| - |UNKNOWN_INDEX|]), At(false, 0))
    else
      var plus := LastPlus(lockId);
      if plus < |lockId| && WholeInt64(lockId[plus + 1..]).Some? then
        RootBinding(Global(lockId[..plus]), At(true, WholeInt64(lockId[plus + 1..]).value))
      else RootBinding(Global(lockId), At(true, 0))
  }

  function LockIdRoot(lockId: string): Option<RootBinding> {
    match ParameterLockPlace(lockId)
    case Place(index, place) => Some(RootBinding(Argument(index), place))
    case Throws => None
    case NoPlace => Some(GlobalPlace(lockId))
  }

  // ----- the round trips -----------------------------------------------------------------------------

  /** Where a lock placed in an object lies: one unknown offset makes the sum unknown. */
  function Position(owner: RootBinding, place: MemoryRegion): MemoryRegion {
    if owner.region.hasKnownOffset && place.hasKnownOffset
    then At(true, owner.region.byteOffset + place.byteOffset) else At(false, 0)
  }

  predicate FitsInt64(owner: RootBinding, place: MemoryRegion) {
    IsInt64(owner.region.byteOffset + place.byteOffset)
  }

  lemma SuffixReadsBack(known: bool, offset: int)
    requires IsInt64(offset)
    ensures var suffix := Suffix(known, offset);
            && (suffix != [] ==> !IsDigit(suffix[0]))
            && (known && offset != 0 ==> suffix[0] == '+' && LeadingInt64(suffix[1..]) == Some(offset))
  {
    if known && offset != 0 {
      PrintedLeads(offset);
      assert ("+" + Printed(offset))[1..] == Printed(offset);
    }
  }

  /** A lock named after a parameter is read back as that parameter, at the place it was printed for. */
  lemma ParameterRoundTrip(owner: RootBinding, place: MemoryRegion)
    requires owner.root.Argument? && owner.root.index < UINT32_RANGE && FitsInt64(owner, place)
    ensures LockIdRoot(LockIdAt(owner, place)) == Some(RootBinding(owner.root, Position(owner, place)))
  {
    var known := owner.region.hasKnownOffset && place.hasKnownOffset;
    var offset := owner.region.byteOffset + place.byteOffset;
    var digits, suffix := Digits(owner.root.index), Suffix(known, offset);
    assert LockIdAt(owner, place) == PARAMETER_LOCK_PREFIX + digits + suffix;
    SuffixReadsBack(known, offset);
    DigitsReadBack(owner.root.index);
    PlaceRead(digits, suffix);
  }

  lemma PlaceRead(digits: string, suffix: string)
    requires digits != [] && AllDigits(digits) && ValueOf(digits) < UINT32_RANGE
    requires suffix != [] ==> !IsDigit(suffix[0])
    ensures var place := ParameterLockPlace(PARAMETER_LOCK_PREFIX + digits + suffix);
            && (suffix == [] ==> place == Place(ValueOf(digits), At(true, 0)))
            && (suffix == UNKNOWN_INDEX ==> place == Place(ValueOf(digits), At(false, 0)))
            && (suffix != [] && suffix[0] == '+' && LeadingInt64(suffix[1..]).Some? ==>
                  place == Place(ValueOf(digits), At(true, LeadingInt64(suffix[1..]).value)))
  {
    hide LeadingInt64, ParameterLockPlace, ValueOf, AllDigits;
    var id, index := PARAMETER_LOCK_PREFIX + digits + suffix, ValueOf(digits);
    forall place | SaysPlace(suffix, place)
      ensures ParameterLockPlace(id) == Place(index, place)
    {
      SplitReads(id, digits, suffix, index, place);
    }
    assert suffix == [] ==> SaysPlace(suffix, At(true, 0));
    assert suffix == "[*]" ==> SaysPlace(suffix, At(false, 0));
  }

  lemma {:induction false} LastPlusBefore(s: string, tail: string)
    requires forall i | 0 <= i < |tail| :: tail[i] != '+'
    ensures LastPlus(s + ['+'] + tail) == |s|
  {
    var whole := s + ['+'] + tail;
    if tail != [] {
      assert whole[..|whole| - 1] == s + ['+'] + tail[..|tail| - 1];
      LastPlusBefore(s, tail[..|tail| - 1]);
    }
  }

  /** The symbol cannot be mistaken for a shorter one at some place. */
  predicate IsPlain(symbol: string) {
    && !EndsWith(symbol, UNKNOWN_INDEX)
    && var plus := LastPlus(symbol); !(plus < |symbol| && WholeInt64(symbol[plus + 1..]).Some?)
  }

  lemma PrintedHasNoPlus(v: int)
    ensures forall i | 0 <= i < |Printed(v)| :: Printed(v)[i] != '+'
  {
  }

  lemma EndOf(s: string, suffix: string)
    requires suffix != []
    ensures EndsWith(s, suffix) ==> s[|s| - 1] == suffix[|suffix| - 1]
  {
    if EndsWith(s, suffix) {
      assert s[|s| - |suffix|..][|suffix| - 1] == s[|s| - 1];
    }
  }

  /** Any name printed with a place other than the start of its object is read back at that place. */
  lemma PlacedGlobal(symbol: string, known: bool, offset: int)
    requires IsInt64(offset) && (!known || offset != 0)
    ensures GlobalPlace(symbol + Suffix(known, offset))
         == RootBinding(Global(symbol), if known then At(true, offset) else At(false, 0))
  {
    var id := symbol + Suffix(known, offset);
    if !known {
      assert id[|id| - 3..] == UNKNOWN_INDEX && id[..|id| - 3] == symbol;
    } else {
      assert id == symbol + ['+'] + Printed(offset);
      PrintedHasNoPlus(offset);
      LastPlusBefore(symbol, Printed(offset));
      PrintedReadsBack(offset);
      assert id[|symbol| + 1..] == Printed(offset) && id[..|symbol|] == symbol;
      assert IsDigit(id[|id| - 1]);
      EndOf(id, UNKNOWN_INDEX);
    }
  }

  /** A lock named after a global is read back as that global at its place exactly when its name is no parameter's
      and, at the start of the object, the symbol is plain. */
  lemma GlobalRoundTrip(owner: RootBinding, place: MemoryRegion)
    requires owner.root.Global? && FitsInt64(owner, place)
    ensures LockIdRoot(LockIdAt(owner, place)) == Some(RootBinding(owner.root, Position(owner, place)))
       <==> && ParameterLockPlace(LockIdAt(owner, place)).NoPlace?
            && (Position(owner, place) == At(true, 0) ==> IsPlain(owner.root.symbol))
  {
    hide ParameterLockPlace, GlobalPlace, IsPlain, Printed;
    var known := owner.region.hasKnownOffset && place.hasKnownOffset;
    var offset := owner.region.byteOffset + place.byteOffset;
    var symbol := owner.root.symbol;
    if known && offset == 0 {
      assert symbol + "" == symbol;
      PlainGlobal(symbol);
    } else {
      PlacedGlobal(symbol, known, offset);
    }
  }

  /** A bare name is read back as the start of its object exactly when it is plain. */
  lemma PlainGlobal(symbol: string)
    ensures GlobalPlace(symbol) == RootBinding(Global(symbol), At(true, 0)) <==> IsPlain(symbol)
  {
    hide WholeInt64, LastPlus;
  }

  /** The printer and the reader agree on the lock. */
  predicate RoundTrips(owner: RootBinding, place: MemoryRegion) {
    LockIdRoot(LockIdAt(owner, place)) == Some(RootBinding(owner.root, Position(owner, place)))
  }

  /** A parameter the reader can number, or a symbol it cannot mistake. */
  predicate WellFormed(owner: RootBinding, place: MemoryRegion) {
    match owner.root
    case Argument(index) => index < UINT32_RANGE
    case Global(symbol) =>
      && ParameterLockPlace(LockIdAt(owner, place)).NoPlace?
      && (Position(owner, place) == At(true, 0) ==> IsPlain(symbol))
  }

  lemma WellFormedRoundTrips(owner: RootBinding, place: MemoryRegion)
    requires FitsInt64(owner, place) && WellFormed(owner, place)
    ensures RoundTrips(owner, place)
  {
    hide LockIdRoot, LockIdAt, IsPlain, ParameterLockPlace;
    if owner.root.Argument? {
      ParameterRoundTrip(owner, place);
    } else {
      GlobalRoundTrip(owner, place);
    }
  }

  /** The name read back and printed again is the same name. */
  lemma ReprintsTheSame(owner: RootBinding, place: MemoryRegion)
    requires FitsInt64(owner, place) && WellFormed(owner, place)
    ensures LockIdRoot(LockIdAt(owner, place)).Some?
    ensures LockIdAt(LockIdRoot(LockIdAt(owner, place)).value, At(true, 0)) == LockIdAt(owner, place)
  {
    hide LockIdRoot, IsPlain, ParameterLockPlace, Digits, Printed;
    WellFormedRoundTrips(owner, place);
  }

  /** Placing a lock through two frames, reading its name in between, is placing it once at the sum. */
  lemma TwoFramesAreOne(owner: RootBinding, inner: MemoryRegion, outer: MemoryRegion)
    requires FitsInt64(owner, inner) && WellFormed(owner, inner)
    ensures LockIdRoot(LockIdAt(owner, inner)).Some?
    ensures LockIdAt(LockIdRoot(LockIdAt(owner, inner)).value, outer)
         == LockIdAt(owner, Position(RootBinding(owner.root, inner), outer))
  {
    hide LockIdRoot, IsPlain, ParameterLockPlace, Digits, Printed;
    WellFormedRoundTrips(owner, inner);
  }

  /** The name is the parameter prefix, a number that fits 64 bits, and something that starts with no digit. */
  ghost predicate SplitsInto(lockId: string, digits: string, suffix: string) {
    && lockId == "%arg" + digits + suffix && digits != [] && AllDigits(digits)
    && ValueOf(digits) < 0x1_0000_0000_0000_0000 && (suffix != [] ==> !('0' <= suffix[0] <= '9'))
  }

  /** What follows the number says the place: nothing, an unknown index, or a sign and a number. */
  ghost predicate SaysPlace(suffix: string, place: MemoryRegion) {
    || (suffix == [] && place == At(true, 0))
    || (suffix == "[*]" && place == At(false, 0))
    || (suffix != [] && suffix[0] == '+' && LeadingInt64(suffix[1..]).Some?
        && place == At(true, LeadingInt64(suffix[1..]).value))
  }

  ghost predicate ReadsAs(lockId: string, digits: string, suffix: string, index: nat, place: MemoryRegion) {
    SplitsInto(lockId, digits, suffix) && index == ValueOf(digits) % 0x1_0000_0000 && SaysPlace(suffix, place)
  }

  /** Exactly which names are read as a parameter's, and as which place of which parameter. */
  lemma ParameterPlaceIff(lockId: string, index: nat, place: MemoryRegion)
    ensures ParameterLockPlace(lockId) == Place(index, place)
       <==> exists digits, suffix :: ReadsAs(lockId, digits, suffix, index, place)
  {
    hide LeadingInt64;
    if digits, suffix :| ReadsAs(lockId, digits, suffix, index, place) {
      SplitReads(lockId, digits, suffix, index, place);
    }
    if ParameterLockPlace(lockId) == Place(index, place) {
      var rest := lockId[4..];
      var n := DigitPrefix(rest);
      assert lockId == "%arg" + rest[..n] + rest[n..];
      assert ReadsAs(lockId, rest[..n], rest[n..], index, place);
    }
  }

  lemma SplitReads(lockId: string, digits: string, suffix: string, index: nat, place: MemoryRegion)
    requires ReadsAs(lockId, digits, suffix, index, place)
    ensures ParameterLockPlace(lockId) == Place(index, place)
  {
    hide LeadingInt64;
    var rest := lockId[4..];
    assert rest == digits + suffix;
    DigitPrefixOf(digits, suffix);
    assert rest[..|digits|] == digits && rest[|digits|..] == suffix;
    assert PARAMETER_LOCK_PREFIX <= lockId;
  }

  /** A symbol without the parameter prefix names no parameter, wherever the lock lies in it. */
  lemma UnprefixedIsNoParameter(owner: RootBinding, place: MemoryRegion)
    requires owner.root.Global? && !(PARAMETER_LOCK_PREFIX <= owner.root.symbol)
    ensures ParameterLockPlace(LockIdAt(owner, place)).NoPlace?
  {
    var id, symbol := LockIdAt(owner, place), owner.root.symbol;
    assert symbol <= id;
    assert |symbol| < |id| ==> id[|symbol|] == '+' || id[|symbol|] == '[';
    assert |symbol| < |id| && |symbol| < 4 ==> id[|symbol|] != PARAMETER_LOCK_PREFIX[|symbol|];
    assert |symbol| >= 4 ==> id[..4] == symbol[..4] && !(PARAMETER_LOCK_PREFIX <= id);
  }
}
