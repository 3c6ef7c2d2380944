/** Types of core/src/renderers/interfaces.ts and the caret directions the caret manager takes. */
module Interfaces {

  /** `CaretDirection`. */
  datatype CaretDirection = LEFT | RIGHT | UP | DOWN

  /** `ICaretPosition`: a block id and an offset, as the caret manager reports it.
      DOM range offsets are never negative. */
  datatype CaretPosition = CaretPosition(blockNodeId: string, offset: nat)
}
