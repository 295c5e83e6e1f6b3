/**
 * The helpers of source/VisualRBM/QuickBoltzmannNative/Common.h: swap, the
 * rand()-driven shuffle and the 16-byte aligned memory block. Memory
 * addresses are not modelled: the block holds its user bytes as a sequence.
 */
module NativeCommon {
  import opened Bytes

  const TWO64: int := 0x1_0000_0000_0000_0000
  const ALIGNMENT: nat := 16

  /**
   * What uint64_t(1 << 31) - 1 evaluates to: 1 << 31 is the int INT_MIN,
   * which becomes 2^64 - 2^31 as a uint64_t, so the multiplier is
   * 2^64 - 2^31 - 1 rather than the Mersenne prime 2^31 - 1.
   */
  const MULTIPLIER: nat := 0xFFFF_FFFF_7FFF_FFFF

  lemma MultiplierValue()
    ensures MULTIPLIER == TWO64 - 0x8000_0000 - 1 && MULTIPLIER != 0x7FFF_FFFF
  {
  }

  /** The index shuffle draws for position k from one rand() result. */
  function ChosenIndex(r: nat, k: nat): (i: nat)
    requires k > 0
    ensures i < k
  {
    (r * MULTIPLIER) % TWO64 % k
  }

  method Swap<T>(a: array<T>, i: nat, j: nat)
    requires i < a.Length && j < a.Length
    modifies a
    ensures a[..] == old(a[..])[i := old(a[j])][j := old(a[i])]
    ensures multiset(a[..]) == multiset(old(a[..]))
  {
    var temp := a[i];
    a[i] := a[j];
    a[j] := temp;
  }

  /**
   * The first k of shuffle as written: in_count - 1 in uint32, so an empty
   * buffer starts at 2^32 - 1 and the first swap is outside the buffer.
   */
  function ShuffleStart(count: u32): u32
  {
    Wrap32(count - 1)
  }

  lemma EmptyShuffleStartsOutside()
    ensures ShuffleStart(0) == U32_MAX && ShuffleStart(0) > 1
  {
  }

  /**
   * shuffle with its loop guarded for an empty buffer: k runs from
   * count - 1 down to 2 and each k is swapped with an index below it.
   * draw(t) is the t-th rand() result.
   */
  method Shuffle<T>(a: array<T>, draw: nat -> nat)
    requires a.Length < TWO32
    modifies a
    ensures multiset(a[..]) == multiset(old(a[..]))
    ensures a.Length < 2 ==> a[..] == old(a[..])
  {
    if a.Length == 0 {
      return;
    }
    var k := a.Length - 1;
    var t := 0;
    while k > 1
      invariant 0 <= k < a.Length
      invariant multiset(a[..]) == multiset(old(a[..]))
      invariant a.Length < 2 ==> a[..] == old(a[..])
    {
      var index := ChosenIndex(draw(t), k);
      Swap(a, k, index);
      k := k - 1;
      t := t + 1;
    }
  }

  /** The sizes Acquire computes for a request of byteCount bytes. */
  datatype Layout = Layout(totalSize: u32, userSize: u32, blockCount: u32)

  function LayoutFor(byteCount: u32): (l: Layout)
  {
    var backPadding := if byteCount % ALIGNMENT == 0 then 0 else ALIGNMENT;
    Layout(Wrap32(ALIGNMENT + byteCount + backPadding), Wrap32(byteCount + backPadding), Wrap32(byteCount + backPadding) / ALIGNMENT)
  }

  /**
   * Without wrap-around the blocks exactly cover the request rounded up to 16
   * bytes: blockCount is the ceiling of byteCount / 16, although a request
   * that is not a multiple of 16 reports 16 bytes more than that as its size.
   */
  lemma LayoutCovers(byteCount: u32)
    requires byteCount + 2 * ALIGNMENT < TWO32
    ensures var l := LayoutFor(byteCount);
      l.blockCount * ALIGNMENT >= byteCount && l.blockCount * ALIGNMENT < byteCount + ALIGNMENT &&
      l.userSize == byteCount + (if byteCount % ALIGNMENT == 0 then 0 else ALIGNMENT) &&
      l.totalSize == l.userSize + ALIGNMENT
  {
    var q, r := byteCount / ALIGNMENT, byteCount % ALIGNMENT;
    assert byteCount == q * ALIGNMENT + r;
    if r != 0 {
      assert (q * ALIGNMENT + r + ALIGNMENT) / ALIGNMENT == q + 1;
    }
  }

  class AlignedMemoryBlock {
    /** sizeof(T) */
    const elementSize: nat
    /** _head != 0 */
    var held: bool
    var blockCount: u32
    var totalSize: u32
    var userSize: u32
    /** The user bytes at the aligned pointer. */
    var memory: seq<byte>

    constructor(size: nat)
      ensures elementSize == size && !held && blockCount == 0 && userSize == 0 && memory == []
    {
      elementSize := size;
      held := false;
      blockCount := 0;
      totalSize := 0;
      userSize := 0;
      memory := [];
    }

    /** Release: the block is freed and every size goes back to 0. */
    method Release()
      modifies this
      ensures !held && blockCount == 0 && totalSize == 0 && userSize == 0 && memory == []
    {
      held := false;
      blockCount, totalSize, userSize := 0, 0, 0;
      memory := [];
    }

    /** Acquire: the old block is released and a zeroed one of the computed layout held. */
    method Acquire(count: u32)
      modifies this
      ensures var l := LayoutFor(Wrap32(count * elementSize));
        held && totalSize == l.totalSize && userSize == l.userSize && blockCount == l.blockCount
      ensures memory == Zeros(userSize)
    {
      Release();
      var byteCount := Wrap32(count * elementSize);
      var backPadding := if byteCount % ALIGNMENT == 0 then 0 else ALIGNMENT;
      totalSize := Wrap32(ALIGNMENT + byteCount + backPadding);
      userSize := Wrap32(byteCount + backPadding);
      held := true;
      memory := Zeros(userSize);
      blockCount := Wrap32(byteCount + backPadding) / ALIGNMENT;
    }
  }
}
