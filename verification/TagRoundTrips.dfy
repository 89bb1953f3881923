/** Programming a tag and reading it back: blocks whose bits are sent over and over, from any bit on, into a
    ring at any position. */
module TagRoundTrips {
  import opened Words
  import opened Blocks
  import opened Ring
  import Em4100
  import Em4100Decoder
  import FdxB
  import FdxBDecoder
  import PhidgetsTag
  import PhidgetsTagDecoder

  ghost predicate AreBlocks(blocks: seq<Word>) { |blocks| > 0 && forall i :: 0 <= i < |blocks| ==> |blocks[i]| == 32 }

  /** The queue between the pointers is a stretch of the blocks sent back to back. */
  ghost predicate SentInto(blocks: seq<Word>, data: seq<bool>, startPtr: nat, endPtr: nat, rot: nat)
    requires AreBlocks(blocks) && |data| == SIZE && startPtr < SIZE && endPtr < SIZE
  {
    forall i :: 0 <= i < Queued(startPtr, endPtr) ==> Peek(data, startPtr, i) == SentBits(blocks)[(i + rot) % (32 * |blocks|)]
  }

  /** What the decoder sees of a ring. */
  function Reached(data: seq<bool>, startPtr: nat, endPtr: nat): (q: seq<bool>)
    requires |data| == SIZE && startPtr < SIZE && endPtr < SIZE
  {
    Held(data, startPtr, Reach(startPtr, endPtr))
  }

  /** A programmed EM4100 tag is read back in lower case. */
  lemma Em4100Reads(blocks: seq<Word>, s: string, data: seq<bool>, startPtr: nat, endPtr: nat, rot: nat)
    requires AreBlocks(blocks) && |blocks| == 2 && Em4100.TagDigits(s) && SentBits(blocks) == Em4100.Frame(s)
    requires |data| == SIZE && startPtr < SIZE && endPtr < SIZE && Queued(startPtr, endPtr) >= 127
    requires SentInto(blocks, data, startPtr, endPtr, rot)
    ensures var r := Em4100Decoder.Decoded(Reached(data, startPtr, endPtr), startPtr == endPtr);
      r.Tag? && |r.tagString| == |s| && forall i :: 0 <= i < |s| ==> r.tagString[i] == LowerCase(s[i])
  {
    hide SentBits, Em4100.FrameBit;
    var q := Held(data, startPtr, Queued(startPtr, endPtr));
    forall i: nat | i < |q| ensures q[i] == Em4100.FrameBit(s, (i + rot) % 64) {
      assert q[i] == Peek(data, startPtr, i) == SentBits(blocks)[(i + rot) % 64];
    }
    Em4100Decoder.RingSelfSynchronising(data, startPtr, endPtr, s, rot);
  }

  /** A programmed FDX-B tag is read back unchanged. */
  lemma FdxBReads(blocks: seq<Word>, s: string, data: seq<bool>, startPtr: nat, endPtr: nat, rot: nat)
    requires AreBlocks(blocks) && |blocks| == 4 && FdxB.TagDigits(s) && SentBits(blocks) == FdxB.Frame(FdxB.TagData(s))
    requires |data| == SIZE && startPtr < SIZE && endPtr < SIZE && Queued(startPtr, endPtr) >= 255
    requires SentInto(blocks, data, startPtr, endPtr, rot)
    ensures FdxBDecoder.Decoded(Reached(data, startPtr, endPtr), startPtr == endPtr) == FdxB.Tag(s)
  {
    hide SentBits, FdxB.FrameBit, FdxB.TagData;
    var q := Held(data, startPtr, Queued(startPtr, endPtr));
    forall i: nat | i < |q| ensures q[i] == FdxB.FrameBit(FdxB.TagData(s), (i + rot) % 128) {
      assert q[i] == Peek(data, startPtr, i) == SentBits(blocks)[(i + rot) % 128];
    }
    FdxBDecoder.RingSelfSynchronising(data, startPtr, endPtr, s, rot);
  }

  /** A programmed PhidgetsTAG is read back unchanged. */
  lemma PhidgetsTagReads(blocks: seq<Word>, s: string, data: seq<bool>, startPtr: nat, endPtr: nat, rot: nat)
    requires AreBlocks(blocks) && |blocks| == 7 && PhidgetsTag.TagText(s)
    requires SentBits(blocks) == PhidgetsTag.Frame(PhidgetsTag.TextData(s))
    requires |data| == SIZE && startPtr < SIZE && endPtr < SIZE && Queued(startPtr, endPtr) >= 447
    requires SentInto(blocks, data, startPtr, endPtr, rot)
    ensures PhidgetsTagDecoder.Decoded(Reached(data, startPtr, endPtr), startPtr == endPtr) == PhidgetsTag.Tag(s)
  {
    hide SentBits, PhidgetsTag.FrameBit, PhidgetsTag.TextData;
    var q := Held(data, startPtr, Queued(startPtr, endPtr));
    forall i: nat | i < |q| ensures q[i] == PhidgetsTag.FrameBit(PhidgetsTag.TextData(s), (i + rot) % 224) {
      assert q[i] == Peek(data, startPtr, i) == SentBits(blocks)[(i + rot) % 224];
    }
    PhidgetsTagDecoder.RingSelfSynchronising(data, startPtr, endPtr, s, rot);
  }
}
