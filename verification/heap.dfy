/**
 The bump allocator of heap_simple.c: one static buffer of
 configTOTAL_HEAP_SIZE bytes and the offset xNextFreeByte of its first unused
 byte. Blocks are never freed; vPortInitialiseBlocks starts over.

 Pointers into ucHeap are modelled as offsets from its first byte, NULL as
 None. size_t is 32 bits on this target, so the arithmetic of the source as
 written wraps around; `MallocAsWritten` keeps that and `Malloc` is the
 allocator with the overflow checks the code evidently intends.
 */
module Heap {
  import opened Words
  import Config

  const HeapSize: nat := Config.TotalHeapSize

  /** xNextFreeByte. */
  datatype Heap = Heap(nextFree: uint32)
  {
    /** The allocator's invariant: the offset is word aligned and inside the buffer. */
    predicate Valid()
    {
      nextFree % 4 == 0 && nextFree <= HeapSize
    }
  }

  /** The state at load time (the static initialiser). */
  const Initial: Heap := Heap(0)

  /** What pvPortMalloc leaves behind and returns: the offset of the block, or None for NULL. */
  datatype Alloc = Alloc(heap: Heap, block: Option<nat>)

  /** A block handed out: its offset, the number of bytes reserved for it,
      and the position in a run of the request it answers. */
  datatype Block = Block(start: nat, size: nat, request: nat)

  /** `x & ~3` on a 32-bit value: the two low bits cleared. */
  function ClearLowBits(x: uint32): (r: uint32)
    ensures r % 4 == 0 && r <= x < r + 4
  {
    x - x % 4
  }

  /** The intended rounding: the least multiple of 4 that is at least `wanted`. */
  function AlignUp(wanted: nat): (r: nat)
    ensures r % 4 == 0 && wanted <= r < wanted + 4
  {
    if wanted % 4 != 0 then wanted + 4 - wanted % 4 else wanted
  }

  /** The rounding as written: `(x + 4) & ~3` for a request with either low bit
      set, in wrapping size_t arithmetic. */
  function AlignAsWritten(wanted: uint32): (r: uint32)
    ensures r % 4 == 0
    ensures wanted % 4 == 0 ==> r == wanted
    ensures wanted + 4 < WordModulus ==> r == AlignUp(wanted)
    ensures wanted + 4 >= WordModulus && wanted % 4 != 0 ==> r == 0
  {
    if wanted % 4 != 0 then ClearLowBits(AddU32(wanted, 4)) else wanted
  }

  /** pvPortMalloc as written: the bounds test `xNextFreeByte + xWantedSize <=
      configTOTAL_HEAP_SIZE` and the advance both wrap. Even so the invariant
      is kept, but the returned block need not hold `wanted` bytes. */
  function MallocAsWritten(h: Heap, wanted: uint32): (r: Alloc)
    ensures h.Valid() ==> r.heap.Valid()
    ensures r.block.None? ==> r.heap == h
    ensures r.block.Some? ==> r.block.value == h.nextFree
  {
    var size := AlignAsWritten(wanted);
    if AddU32(h.nextFree, size) <= HeapSize then
      Alloc(Heap(AddU32(h.nextFree, size)), Some(h.nextFree))
    else
      Alloc(h, None)
  }

  /** pvPortMalloc with the intended arithmetic. A request succeeds exactly
      when its rounded size fits in what is left; the block then starts at the
      old offset, holds the request, and lies inside the buffer. */
  function Malloc(h: Heap, wanted: uint32): (r: Alloc)
    ensures r.block.Some? <==> h.nextFree + AlignUp(wanted) <= HeapSize
    ensures r.block.Some? ==>
              && r.block.value == h.nextFree
              && r.heap.nextFree == h.nextFree + AlignUp(wanted)
              && r.block.value + wanted <= r.heap.nextFree <= HeapSize
    ensures r.block.None? ==> r.heap == h
    ensures h.Valid() ==> r.heap.Valid()
    ensures h.nextFree <= r.heap.nextFree
  {
    var size := AlignUp(wanted);
    if h.nextFree + size <= HeapSize then
      Alloc(Heap(h.nextFree + size), Some(h.nextFree))
    else
      Alloc(h, None)
  }

  /** vPortFree: this scheme cannot free, so nothing changes. */
  function Free(h: Heap, block: Option<nat>): (r: Heap)
    ensures r == h
  {
    h
  }

  /** vPortInitialiseBlocks: every byte is free again. */
  function InitialiseBlocks(h: Heap): (r: Heap)
    ensures r.Valid() && FreeHeapSize(r) == HeapSize
  {
    Initial
  }

  /** xPortGetFreeHeapSize: `configTOTAL_HEAP_SIZE - xNextFreeByte` in size_t. */
  function FreeHeapSize(h: Heap): (r: uint32)
    ensures h.Valid() ==> r + h.nextFree == HeapSize
  {
    (HeapSize - h.nextFree) % WordModulus
  }

  /** xPortGetMinimumEverFreeHeapSize: the same expression, since nothing is
      ever freed. */
  function MinimumEverFreeHeapSize(h: Heap): (r: uint32)
    ensures r == FreeHeapSize(h)
  {
    (HeapSize - h.nextFree) % WordModulus
  }

  /** Without wrap-around the code as written and the intended allocator agree. */
  lemma AsWrittenAgreesWithoutWrap(h: Heap, wanted: uint32)
    requires h.nextFree + AlignUp(wanted) < WordModulus
    ensures MallocAsWritten(h, wanted) == Malloc(h, wanted)
  {
    if wanted % 4 != 0 {
      assert wanted + 4 < WordModulus;
    }
  }

  /** A request of 0 always yields a (non-NULL) block and changes nothing,
      even when the heap is full. */
  lemma ZeroRequestSucceeds(h: Heap)
    requires h.Valid()
    ensures Malloc(h, 0) == Alloc(h, Some(h.nextFree))
    ensures MallocAsWritten(h, 0) == Alloc(h, Some(h.nextFree))
  {
  }

  /** Counterexample to the bounds check as written: a near-4 GiB request is
      granted and moves the offset back, after which an ordinary request is
      handed bytes that an earlier block already owns. */
  lemma AsWrittenHugeRequestRewinds()
    ensures var first := MallocAsWritten(Heap(16), 0xFFFF_FFF0);
            && first.block == Some(16)
            && first.heap.nextFree == 0
            && MallocAsWritten(first.heap, 16).block == Some(0)
    ensures Malloc(Heap(16), 0xFFFF_FFF0).block.None?
  {
  }

  /** Counterexample to the rounding as written: 0xFFFFFFFD rounds to 0, so a
      request for nearly 4 GiB succeeds on a full heap. */
  lemma AsWrittenRoundingWraps()
    ensures AlignAsWritten(0xFFFF_FFFD) == 0
    ensures MallocAsWritten(Heap(HeapSize), 0xFFFF_FFFD) == Alloc(Heap(HeapSize), Some(HeapSize))
    ensures Malloc(Heap(HeapSize), 0xFFFF_FFFD).block.None?
  {
  }

  /** A run of pvPortMalloc calls between two resets; the blocks that were granted. */
  function Run(h: Heap, wants: seq<uint32>): (Heap, seq<Block>)
  {
    if |wants| == 0 then (h, [])
    else
      var (mid, blocks) := Run(h, wants[..|wants| - 1]);
      var wanted := wants[|wants| - 1];
      var a := Malloc(mid, wanted);
      if a.block.Some? then (a.heap, blocks + [Block(a.block.value, AlignUp(wanted), |wants| - 1)])
      else (a.heap, blocks)
  }

  /** The blocks a run grants answer distinct requests in the order they were
      made; each reserves its request rounded up to a multiple of 4 (so at
      least the bytes asked for), lies inside the buffer, and the blocks are
      in increasing order and pairwise disjoint. The invariant holds at the
      end and the free size never grows. */
  lemma {:induction false} RunGrantsDisjointBlocks(h: Heap, wants: seq<uint32>)
    requires h.Valid()
    ensures var (last, blocks) := Run(h, wants);
            && last.Valid()
            && h.nextFree <= last.nextFree
            && FreeHeapSize(last) <= FreeHeapSize(h)
            && MinimumEverFreeHeapSize(last) <= MinimumEverFreeHeapSize(h)
            && |blocks| <= |wants|
            && (forall i :: 0 <= i < |blocks| ==>
                  && blocks[i].request < |wants|
                  && blocks[i].size == AlignUp(wants[blocks[i].request])
                  && wants[blocks[i].request] <= blocks[i].size)
            && (forall i, j :: 0 <= i < j < |blocks| ==> blocks[i].request < blocks[j].request)
            && (forall i :: 0 <= i < |blocks| ==>
                  h.nextFree <= blocks[i].start && blocks[i].start + blocks[i].size <= last.nextFree)
            && (forall i, j :: 0 <= i < j < |blocks| ==>
                  blocks[i].start + blocks[i].size <= blocks[j].start)
  {
    if |wants| > 0 {
      var init := wants[..|wants| - 1];
      RunGrantsDisjointBlocks(h, init);
      var (_, earlier) := Run(h, init);
      forall i | 0 <= i < |earlier|
        ensures earlier[i].request < |wants| - 1
        ensures wants[earlier[i].request] == init[earlier[i].request]
      {
      }
    }
  }
}
