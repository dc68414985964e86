/** The part of a function the analyses walk: blocks of instructions joined by edges. */
module ControlFlow {

  /** `size` instructions, the last one the terminator, then the blocks it may go to. */
  datatype Block = Block(size: nat, successors: seq<nat>)

  datatype Point = Point(block: nat, index: nat)

  /** The entry block is block 0; as in LLVM, no block branches back to it. */
  datatype Function = Function(blocks: seq<Block>) {
    ghost predicate Valid() {
      && blocks != []
      && (forall b | 0 <= b < |blocks| :: blocks[b].size > 0)
      && (forall b, k | 0 <= b < |blocks| && 0 <= k < |blocks[b].successors| ::
            0 < blocks[b].successors[k] < |blocks|)
    }

    predicate Contains(p: Point) {
      p.block < |blocks| && p.index < blocks[p.block].size
    }
  }

  datatype Option<+T> = None | Some(value: T)
}
