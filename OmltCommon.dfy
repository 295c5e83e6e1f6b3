/**
 * The helpers of trunk/source/OMLT/OMLT/include/Common.h: BlockCount and the
 * aligned memory block, whose Acquire keeps the block it has when the
 * computed total size is unchanged. The size arithmetic is that of the
 * QuickBoltzmannNative block (NativeCommon.LayoutFor).
 */
module OmltCommon {
  import opened Bytes
  import opened NativeCommon

  /** The number of 4-float blocks needed for floatCount floats. */
  function BlockCount(floatCount: u32): (r: u32)
    ensures 4 * r >= floatCount && 4 * r < floatCount + 4
  {
    if floatCount % 4 == 0 then floatCount / 4 else floatCount / 4 + 1
  }

  class AlignedMemoryBlock {
    /** sizeof(T) */
    const elementSize: nat
    /** _head != 0 */
    var held: bool
    var blockCount: u32
    var totalSize: u32
    var userSize: u32
    /** The user bytes at the aligned pointer. */
    var memory: seq<byte>

    constructor(size: nat)
      ensures elementSize == size && !held && blockCount == 0 && totalSize == 0 && userSize == 0 && memory == []
    {
      elementSize := size;
      held := false;
      blockCount := 0;
      totalSize := 0;
      userSize := 0;
      memory := [];
    }

    /** Release: head, pointer and every count go back to 0. */
    method Release()
      modifies this
      ensures !held && blockCount == 0 && totalSize == 0 && userSize == 0 && memory == []
    {
      held := false;
      blockCount, totalSize, userSize := 0, 0, 0;
      memory := [];
    }

    /**
     * Acquire: nothing happens when the computed total size equals the
     * current one (the old contents stay); otherwise a zeroed block of the
     * computed layout replaces the old one.
     */
    method Acquire(count: u32)
      modifies this
      ensures var l := LayoutFor(Wrap32(count * elementSize));
        if l.totalSize == old(totalSize) then
          held == old(held) && blockCount == old(blockCount) && totalSize == old(totalSize) &&
          userSize == old(userSize) && memory == old(memory)
        else
          held && totalSize == l.totalSize && userSize == l.userSize && blockCount == l.blockCount &&
          memory == Zeros(userSize)
    {
      var byteCount := Wrap32(count * elementSize);
      var backPadding := if byteCount % ALIGNMENT == 0 then 0 else ALIGNMENT;
      var total := Wrap32(ALIGNMENT + byteCount + backPadding);
      if total == totalSize {
        return;
      }
      Release();
      totalSize := total;
      userSize := Wrap32(byteCount + backPadding);
      held := true;
      memory := Zeros(userSize);
      blockCount := Wrap32(byteCount + backPadding) / ALIGNMENT;
    }
  }

  /** A float block count of BlockCount(n) covers n floats of 4 bytes in 16-byte blocks, as an Acquire of n floats does. */
  lemma BlockCountMatchesLayout(n: u32)
    requires 4 * n + 32 < TWO32
    ensures BlockCount(n) == LayoutFor(4 * n).blockCount
  {
    LayoutCovers(4 * n);
  }
}
