/** Byte ranges inside an object, and how a callee's range is placed in its caller's object. */
module MemoryRegions {

  /** Where an access with an unknown offset lies among the elements a spawn loop hands its threads. */
  datatype ElementOwner = NoOwner | AccessingThread | NotYetHandedOver | JoinedThisRound

  predicate HeldBySpawningThread(owner: ElementOwner) {
    owner.NotYetHandedOver? || owner.JoinedThisRound?
  }

  /** A zero size is an unknown extent, and so covers the whole object. */
  datatype MemoryRegion = MemoryRegion(hasKnownOffset: bool, byteOffset: int, byteSize: nat,
                                       elementOwner: ElementOwner, elementEntry: string)
  {
    predicate MayOverlap(other: MemoryRegion) {
      if elementOwner.AccessingThread? && other.elementOwner.AccessingThread? && elementEntry == other.elementEntry
      then false
      else if !hasKnownOffset || !other.hasKnownOffset then true
      else if byteSize == 0 || other.byteSize == 0 then true
      else byteOffset < other.byteOffset + other.byteSize && other.byteOffset < byteOffset + byteSize
    }

    /** The region, relative to a parameter, placed where the argument points in the caller. */
    function RebasedOn(argument: MemoryRegion, designated: MemoryRegion): MemoryRegion {
      if hasKnownOffset && byteOffset == 0 && byteSize == 0 then designated
      else this.(hasKnownOffset := hasKnownOffset && argument.hasKnownOffset,
                 byteOffset := byteOffset + argument.byteOffset)
    }

    predicate OrderedWithElementOwner(other: MemoryRegion) {
      && elementEntry == other.elementEntry
      && ((elementOwner.AccessingThread? && HeldBySpawningThread(other.elementOwner))
          || (other.elementOwner.AccessingThread? && HeldBySpawningThread(elementOwner)))
    }

    /** Some byte in both, when both regions say which bytes they are. */
    ghost predicate SharesByte(other: MemoryRegion) {
      exists byte: int :: Covers(byte) && other.Covers(byte)
    }

    /** The bytes the region may touch: any, when it does not say which. */
    predicate Covers(byte: int) {
      !hasKnownOffset || byteSize == 0 || byteOffset <= byte < byteOffset + byteSize
    }
  }

  function Region(offset: int, size: nat): MemoryRegion {
    MemoryRegion(true, offset, size, NoOwner, "")
  }

  /** Neither is told apart by the elements two instances of one entry hold. */
  predicate NotElementsOfInstances(a: MemoryRegion, b: MemoryRegion) {
    !(a.elementOwner.AccessingThread? && b.elementOwner.AccessingThread? && a.elementEntry == b.elementEntry)
  }

  lemma MayOverlapSymmetric(a: MemoryRegion, b: MemoryRegion)
    ensures a.MayOverlap(b) <==> b.MayOverlap(a)
    ensures a.OrderedWithElementOwner(b) <==> b.OrderedWithElementOwner(a)
  {
  }

  /** Regions may overlap exactly when some byte may be touched by both, element ownership apart. */
  lemma MayOverlapIsExact(a: MemoryRegion, b: MemoryRegion)
    ensures a.MayOverlap(b) <==> NotElementsOfInstances(a, b) && a.SharesByte(b)
  {
    if NotElementsOfInstances(a, b) && a.MayOverlap(b) {
      var byte := if !a.hasKnownOffset || a.byteSize == 0 then b.byteOffset
                  else if !b.hasKnownOffset || b.byteSize == 0 then a.byteOffset
                  else if a.byteOffset < b.byteOffset then b.byteOffset else a.byteOffset;
      assert a.Covers(byte) && b.Covers(byte);
    }
  }

  // ----- rebasing over a chain of calls ------------------------------------------------------------

  /** One call: where the argument points and what it designates, as the caller sees them, and how far into the
      caller's object the parameter really points. */
  datatype Frame = Frame(argument: MemoryRegion, designated: MemoryRegion, shift: int)

  /** A callee's region of unknown extent starting at its parameter. */
  predicate WholeParameter(r: MemoryRegion) {
    r.hasKnownOffset && r.byteOffset == 0 && r.byteSize == 0
  }

  /** What the caller says of the argument is true of the run: its offset is the real one, and an access of
      unknown extent through the parameter stays in the object the argument designates. */
  ghost predicate TrueOf(frame: Frame, r: MemoryRegion, bytes: set<int>) {
    && (frame.argument.hasKnownOffset ==> frame.argument.byteOffset == frame.shift)
    && (WholeParameter(r) ==> forall byte | byte in bytes :: frame.designated.Covers(byte + frame.shift))
  }

  function Shifted(bytes: set<int>, shift: int): set<int> {
    set byte | byte in bytes :: byte + shift
  }

  /** The region as the root frame of the chain names it: the innermost call comes first. */
  function Rebased(r: MemoryRegion, frames: seq<Frame>): MemoryRegion
    decreases frames
  {
    if frames == [] then r
    else Rebased(r.RebasedOn(frames[0].argument, frames[0].designated), frames[1..])
  }

  function RootBytes(bytes: set<int>, frames: seq<Frame>): set<int>
    decreases frames
  {
    if frames == [] then bytes else RootBytes(Shifted(bytes, frames[0].shift), frames[1..])
  }

  ghost predicate ChainTrue(r: MemoryRegion, bytes: set<int>, frames: seq<Frame>)
    decreases frames
  {
    frames != [] ==>
      && TrueOf(frames[0], r, bytes)
      && ChainTrue(r.RebasedOn(frames[0].argument, frames[0].designated), Shifted(bytes, frames[0].shift), frames[1..])
  }

  ghost predicate CoversAll(r: MemoryRegion, bytes: set<int>) {
    forall byte | byte in bytes :: r.Covers(byte)
  }

  lemma RebaseCovers(r: MemoryRegion, bytes: set<int>, frame: Frame)
    requires CoversAll(r, bytes) && TrueOf(frame, r, bytes)
    ensures CoversAll(r.RebasedOn(frame.argument, frame.designated), Shifted(bytes, frame.shift))
  {
    forall byte | byte in Shifted(bytes, frame.shift)
      ensures r.RebasedOn(frame.argument, frame.designated).Covers(byte)
    {
      var inner :| inner in bytes && inner + frame.shift == byte;
    }
  }

  /** The bytes a concrete access touches are covered by its region in every frame up to the root. */
  lemma {:induction false} RebasingCovers(r: MemoryRegion, bytes: set<int>, frames: seq<Frame>)
    requires CoversAll(r, bytes) && ChainTrue(r, bytes, frames)
    ensures CoversAll(Rebased(r, frames), RootBytes(bytes, frames))
    decreases |frames|
  {
    if frames != [] {
      RebaseCovers(r, bytes, frames[0]);
      RebasingCovers(r.RebasedOn(frames[0].argument, frames[0].designated), Shifted(bytes, frames[0].shift), frames[1..]);
    }
  }

  /** Two concrete accesses that share a byte in the root frame, each through its own chain of calls, have regions
      there that may overlap. */
  lemma SharedByteOverlaps(a: MemoryRegion, aBytes: set<int>, aFrames: seq<Frame>,
                           b: MemoryRegion, bBytes: set<int>, bFrames: seq<Frame>, byte: int)
    requires CoversAll(a, aBytes) && ChainTrue(a, aBytes, aFrames)
    requires CoversAll(b, bBytes) && ChainTrue(b, bBytes, bFrames)
    requires byte in RootBytes(aBytes, aFrames) && byte in RootBytes(bBytes, bFrames)
    requires NotElementsOfInstances(Rebased(a, aFrames), Rebased(b, bFrames))
    ensures Rebased(a, aFrames).MayOverlap(Rebased(b, bFrames))
  {
    RebasingCovers(a, aBytes, aFrames);
    RebasingCovers(b, bBytes, bFrames);
    MayOverlapIsExact(Rebased(a, aFrames), Rebased(b, bFrames));
  }

  // ----- rebasing adds nothing it need not -----------------------------------------------------------

  /** The region says exactly which bytes it is. */
  predicate IsExact(r: MemoryRegion) {
    r.hasKnownOffset && r.byteSize > 0
  }

  /** One call: a region known to the byte, on an argument known to the byte, covers exactly its bytes moved there; on any
      other argument it covers everything, as it must; and a parameter taken whole becomes what the argument designates. */
  lemma RebaseIsExact(r: MemoryRegion, argument: MemoryRegion, designated: MemoryRegion, byte: int)
    ensures IsExact(r) && argument.hasKnownOffset ==>
              (r.RebasedOn(argument, designated).Covers(byte) <==> r.Covers(byte - argument.byteOffset))
    ensures IsExact(r) && !argument.hasKnownOffset ==> r.RebasedOn(argument, designated).Covers(byte)
    ensures WholeParameter(r) ==> (r.RebasedOn(argument, designated).Covers(byte) <==> designated.Covers(byte))
    ensures !IsExact(r) && !WholeParameter(r) ==> r.RebasedOn(argument, designated).Covers(byte)
  {
  }

  ghost predicate AllKnown(frames: seq<Frame>) {
    forall i | 0 <= i < |frames| :: frames[i].argument.hasKnownOffset
  }

  ghost function Moved(frames: seq<Frame>): int {
    if frames == [] then 0 else frames[0].argument.byteOffset + Moved(frames[1..])
  }

  /** Along a chain of calls whose arguments are all known, an exact region stays exact, at the sum of the offsets. */
  lemma {:induction false} RebasedIsExact(r: MemoryRegion, frames: seq<Frame>, byte: int)
    requires IsExact(r) && AllKnown(frames)
    ensures Rebased(r, frames).Covers(byte) <==> r.Covers(byte - Moved(frames))
    decreases |frames|
  {
    if frames != [] {
      assert frames[0].argument.hasKnownOffset;
      assert AllKnown(frames[1..]) by {
        assert forall i | 0 <= i < |frames| - 1 :: frames[1..][i] == frames[i + 1];
      }
      var next := r.RebasedOn(frames[0].argument, frames[0].designated);
      RebasedIsExact(next, frames[1..], byte);
      RebaseIsExact(r, frames[0].argument, frames[0].designated, byte - Moved(frames[1..]));
    }
  }
}
