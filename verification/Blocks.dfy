/** The 32-bit blocks a tag is programmed with. */
module Blocks {
  import opened Words

  datatype Encoded = InvalidArg | Blocks(blocks: seq<Word>)

  /** The bits of a sequence of blocks in the order they are sent, most significant first. */
  function SentBits(blocks: seq<Word>): (b: seq<bool>)
    requires forall i :: 0 <= i < |blocks| ==> |blocks[i]| == 32
    ensures |b| == 32 * |blocks|
  {
    seq(32 * |blocks|, p requires 0 <= p < 32 * |blocks| => blocks[p / 32][31 - p % 32])
  }
}
