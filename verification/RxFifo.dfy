/** How smap_dma.c copies a received frame out of the chip: whole blocks by DMA from the frame's place, which the
    pre-DMA callback tells the chip, and the rest word by word from wherever the chip's read pointer is. */
module RxFifo {
  import opened DmaQueue

  const RXBUFSIZE := 16384
  const RXWORDS := 4096

  type Word = U32
  type Memory = s: seq<Word> | |s| == RXWORDS witness seq(RXWORDS, _ => 0)
  type Ptr = x: int | 0 <= x < RXBUFSIZE && x % 4 == 0

  type WordIndex = x: int | 0 <= x < RXWORDS

  /** Word k of the receive memory from ptr on, going round at its end. */
  function Index(ptr: Ptr, k: nat): WordIndex
  {
    (ptr / 4 + k) % RXWORDS
  }

  /** n words of it. */
  function Words(mem: Memory, ptr: Ptr, n: nat): seq<Word>
  {
    seq(n, i requires 0 <= i < n => mem[Index(ptr, i)])
  }

  /** Where a transfer of the given size to or from place ptr really starts. */
  function Origin(ptr: Ptr, rdPtr: Ptr, size: U32): Ptr
  {
    if Blocks(size) > 0 then ptr else rdPtr
  }

  class Chip {
    const mem: array<Word>
    var rdPtr: Ptr

    constructor ()
      ensures mem.Length == RXWORDS && rdPtr == 0 && fresh(mem)
    {
      mem := new Word[RXWORDS];
      rdPtr := 0;
    }

    /** A read of the FIFO data register. */
    method ReadData() returns (w: Word)
      requires mem.Length == RXWORDS
      modifies this
      ensures w == mem[old(rdPtr) / 4] && rdPtr == (old(rdPtr) + 4) % RXBUFSIZE
    {
      w := mem[rdPtr / 4];
      rdPtr := (rdPtr + 4) % RXBUFSIZE;
    }

    /** Words first to last of a frame go to addr. The engine and the PIO loop both work like this. */
    method CopyWords(ghost origin: Ptr, first: nat, last: nat, addr: array<Word>)
      requires mem.Length == RXWORDS && mem != addr && first <= last <= addr.Length
      requires rdPtr == 4 * Index(origin, first)
      modifies this, addr
      ensures rdPtr == 4 * Index(origin, last)
      ensures forall j | 0 <= j < first :: addr[j] == old(addr[j])
      ensures forall j | first <= j < last :: addr[j] == mem[Index(origin, j)]
    {
      hide Index;
      for k := first to last
        invariant rdPtr == 4 * Index(origin, k)
        invariant forall j | 0 <= j < first :: addr[j] == old(addr[j])
        invariant forall j | first <= j < k :: addr[j] == mem[Index(origin, j)]
      {
        NextIndex(origin, k);
        addr[k] := ReadData();
      }
    }

    /** The callbacks and the engine, for a transfer of whole words to addr: every word is copied once, in order,
        from the transfer's origin. */
    method Receive(ptr: Ptr, size: U32, addr: array<Word>)
      requires mem.Length == RXWORDS && mem != addr && size % 4 == 0 && 4 * addr.Length == size
      modifies this, addr
      ensures addr[..] == Words(mem[..], Origin(ptr, old(rdPtr), size), size / 4)
      ensures rdPtr == 4 * Index(Origin(ptr, old(rdPtr), size), size / 4)
    {
      BlocksExactBelow8M(size);
      if Blocks(size) > 0 {
        rdPtr := ptr; // the pre-DMA callback
      }
      ghost var origin := rdPtr;
      CopyWords(origin, 0, 32 * Blocks(size), addr); // the engine
      CopyWords(origin, 32 * Blocks(size), size / 4, addr); // the post-DMA callback
    }
  }

  lemma {:induction false} NextIndex(origin: Ptr, k: nat)
    ensures (4 * Index(origin, k) + 4) % RXBUFSIZE == 4 * Index(origin, k + 1)
  {
  }

  /** A transfer reads its own frame, whatever the memory holds, exactly when it has a whole block or the read
      pointer happens to be at the frame. */
  lemma {:induction false} ReadsOwnFrameIff(ptr: Ptr, rdPtr: Ptr, size: U32)
    requires size >= 4
    ensures (forall mem: Memory :: Words(mem, Origin(ptr, rdPtr, size), size / 4) == Words(mem, ptr, size / 4))
            <==> Blocks(size) > 0 || rdPtr == ptr
  {
    if Blocks(size) == 0 && rdPtr != ptr {
      var mem: Memory := seq(RXWORDS, i requires 0 <= i < RXWORDS => i);
      assert Words(mem, rdPtr, size / 4)[0] == rdPtr / 4 && Words(mem, ptr, size / 4)[0] == ptr / 4;
    }
  }

  type Count = x: int | 0 <= x < 0x4000_0000

  datatype Stored = Stored(ptr: Ptr, words: Count)
  {
    function From(rdPtr: Ptr): Ptr
    {
      Origin(ptr, rdPtr, 4 * words)
    }
  }

  /** The read pointer before frame k, when all frames before it have been transferred. */
  function RdPtr(rdPtr: Ptr, frames: seq<Stored>, k: nat): Ptr
    requires k <= |frames|
  {
    if k == 0 then rdPtr else 4 * Index(frames[k - 1].From(RdPtr(rdPtr, frames, k - 1)), frames[k - 1].words)
  }

  /** While no frame is dropped and the chip stores each behind the one before, every transfer reads its own frame,
      long or short. */
  lemma {:induction false} UndroppedFramesAreRead(rdPtr: Ptr, frames: seq<Stored>, k: nat)
    requires k < |frames| && frames[0].ptr == rdPtr
    requires forall i | 0 < i < |frames| :: frames[i].ptr == 4 * Index(frames[i - 1].ptr, frames[i - 1].words)
    ensures frames[k].From(RdPtr(rdPtr, frames, k)) == frames[k].ptr == RdPtr(rdPtr, frames, k)
    decreases k
  {
    hide Index, Blocks;
    if k > 0 { UndroppedFramesAreRead(rdPtr, frames, k - 1); }
  }

  /** A frame that is dropped is not read, so the read pointer stays at it, and a frame of fewer than 128 bytes
      right behind it is delivered with the dropped frame's words. */
  lemma {:induction false} ShortFrameAfterDrop(dropped: Ptr, droppedWords: nat, ptr: Ptr, size: U32, mem: Memory)
    requires 0 < droppedWords < RXWORDS && ptr == 4 * Index(dropped, droppedWords)
    requires 4 <= size < 128
    ensures Words(mem, Origin(ptr, dropped, size), size / 4) == Words(mem, dropped, size / 4)
    ensures !(forall m: Memory :: Words(m, Origin(ptr, dropped, size), size / 4) == Words(m, ptr, size / 4))
  {
    BlocksExactBelow8M(size);
    ReadsOwnFrameIff(ptr, dropped, size);
  }
}
