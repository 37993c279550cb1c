/** The transmit side of smap.c and main.c as functions on values, together with the chip they drive.

    A frame is copied into the circular transmit memory, whole DMA blocks by the engine and the rest word by
    word by the post-DMA callback; then its buffer descriptor is handed to the chip. All clients of the DMA
    queue other than the transmitter appear as Other, with arbitrary follow-ups of their own. */
module SmapTx {
  import opened DmaQueue
  import opened SmapBd
  import DmaShare

  const TXBUFSIZE := 4096
  const TXBUFBASE := 0x1000
  const TXMAXSIZE := 1514
  const TXWORDS := 1024
  const READY := 0x8300 // READY, GENFCS and GENPAD
  const BLOCKWORDS := 32
  const MAX_REQ_CNT := 64
  const TIMER_INTERVAL := 100_000
  const TIMEOUT := 300_000

  type Word = U32
  type Ptr = x: int | 0 <= x < TXBUFSIZE

  /** A frame to send: its buffer, its length and the words the DMA engine will find there. */
  datatype Frame = Frame(id: nat, addr: U32, len: U16, words: seq<Word>)
  {
    predicate WellFormed()
    {
      |words| == (len + 3) / 4
    }
  }

  /** What the transmitter has the DMA queue do for it: bring a frame to its place and publish its descriptor. */
  datatype Job = Job(ptr: Ptr, index: Index, frame: Frame)

  type Transfer = DmaShare.Shared<Job>

  type Memory = s: seq<Word> | |s| == TXWORDS witness seq(TXWORDS, _ => 0)
  type Queue = q: seq<Transfer> | Settled(q)

  datatype Status = Ok | Err | Con | Full

  /** SMapCB, the chip's transmit memory and write pointer, the words the engine has moved for the transfer
      it runs, the DMA queue, and the frames whose owners were called back. The last three fields are history:
      every frame given to the DMA queue, how many of them got a descriptor, how many were released again. */
  datatype Smap = Smap(
    linkValid: bool,
    ptrStart: Ptr, ptrEnd: Ptr,
    indexStart: Index, indexDma: Index, indexEnd: Index,
    bd: Bds,
    mem: Memory, wrPtr: Ptr, moved: nat,
    queue: Queue,
    acked: seq<nat>,
    sent: seq<Frame>, published: nat, released: nat)

  function Init(mem: Memory): Smap
  {
    Smap(false, 0, 0, 0, 0, 0, seq(BDS, _ => Bd(0, 0, 0)), mem, 0, 0, [], [], [], 0, 0)
  }

  function FreeSize(s: Smap): int
  {
    if s.ptrStart > s.ptrEnd then s.ptrStart - s.ptrEnd else TXBUFSIZE - (s.ptrEnd - s.ptrStart)
  }

  // ---------- the chip ----------

  /** The FIFO data register: stores a word and moves the write pointer on. */
  function Poke(mem: Memory, wrPtr: Ptr, ws: seq<Word>): Memory
    decreases |ws|
  {
    if ws == [] then mem else Poke(mem[wrPtr / 4 := ws[0]], (wrPtr + 4) % TXBUFSIZE, ws[1..])
  }

  function WriteWords(s: Smap, ws: seq<Word>): Smap
  {
    s.(mem := Poke(s.mem, s.wrPtr, ws), wrPtr := (s.wrPtr + 4 * |ws|) % TXBUFSIZE)
  }

  /** The engine has a word to move for the running transfer. */
  predicate CanMove(s: Smap)
  {
    && s.queue != [] && s.queue[0].payload.Own?
    && s.moved < BLOCKWORDS * Blocks(s.queue[0].size)
    && s.moved < |s.queue[0].payload.job.frame.words|
  }

  function EngineMove(s: Smap): Smap
    requires CanMove(s)
  {
    WriteWords(s, [s.queue[0].payload.job.frame.words[s.moved]]).(moved := s.moved + 1)
  }

  /** The chip rewrites the status of a descriptor: it has sent the frame, or given up on it. */
  function Transmit(s: Smap, d: Index, ctrl: U16): Smap
  {
    s.(bd := s.bd[d := s.bd[d].(ctrl := ctrl)])
  }

  // ---------- callbacks of the DMA queue ----------

  /** _smap_dma_dev9_pre_dma points the chip at the frame's place. */
  function PreDma(s: Smap, r: Transfer): Smap
  {
    if r.payload.Own? then s.(wrPtr := r.payload.job.ptr, moved := 0) else s.(moved := 0)
  }

  /** The words that the DMA blocks leave over. */
  function Tail(r: Transfer): seq<Word>
    requires r.payload.Own?
  {
    var n, words := BLOCKWORDS * Blocks(r.size), r.payload.job.frame.words;
    if n < |words| then words[n..] else []
  }

  /** _tx_smap_done_callback hands the descriptor to the chip and calls the owner of the buffer back. */
  function TxDone(s: Smap, tx: Job): Smap
  {
    s.(indexEnd := Next(s.indexEnd),
       bd := s.bd[tx.index := Bd(READY, tx.frame.len, tx.ptr + TXBUFBASE)],
       acked := s.acked + [tx.frame.id],
       published := s.published + 1)
  }

  function Complete(s: Smap, r: Transfer): Smap
  {
    if r.payload.Own? then TxDone(WriteWords(s, Tail(r)), r.payload.job) else s
  }

  function CompleteAll(s: Smap, rs: seq<Transfer>): Smap
    decreases |rs|
  {
    if rs == [] then s else CompleteAll(Complete(s, rs[0]), rs[1..])
  }

  /** The callbacks of one step of the DMA queue, in order. */
  function Apply(s: Smap, o: Outcome<DmaShare.Payload<Job>>, started: bool): Smap
    requires Settled(o.queue)
  {
    var t := CompleteAll(s.(queue := o.queue), o.done);
    if started && o.queue != [] then PreDma(t, o.queue[0]) else t
  }

  function DmaTransfer(s: Smap, r: Transfer): Smap
  {
    SubmitConserves(s.queue, r);
    Apply(s, Submit(s.queue, r), s.queue == [])
  }

  function DmaInterrupt(s: Smap): Smap
  {
    InterruptConserves(s.queue);
    if s.queue == [] then s else Apply(s, Interrupt(s.queue), true)
  }

  // ---------- smap.c ----------

  function TxTransfer(f: Frame, ptr: Ptr, index: Index): Transfer
  {
    Request(DmaShare.Own(Job(ptr, index, f)), f.addr, Aligned(f.len), [])
  }

  function SendStatus(s: Smap, f: Frame): Status
  {
    if !s.linkValid then Con
    else if f.len > TXMAXSIZE then Err
    else if Aligned(f.len) > FreeSize(s) then Full
    else Ok
  }

  /** SMap_Send. The transfer may complete before the end of the active range is moved. */
  function Send(s: Smap, f: Frame): Smap
  {
    if SendStatus(s, f) != Ok then s
    else
      var t := DmaTransfer(s.(sent := s.sent + [f]), TxTransfer(f, s.ptrEnd, s.indexDma));
      t.(ptrEnd := (t.ptrEnd + Aligned(f.len)) % TXBUFSIZE, indexDma := Next(t.indexDma))
  }

  function Release(s: Smap): Smap
  {
    var d := s.indexStart;
    s.(ptrStart := (s.ptrStart + Aligned(s.bd[d].length)) % TXBUFSIZE,
       indexStart := Next(d),
       bd := s.bd[d := Bd(0, 0, 0)],
       released := s.released + 1)
  }

  /** Releases descriptors up to the first that is still with the chip. */
  function ReleaseSent(s: Smap): Smap
    decreases (s.indexEnd - s.indexStart) % BDS
  {
    if s.indexStart == s.indexEnd || s.bd[s.indexStart].Ready() then s else ReleaseSent(Release(s))
  }

  /** The condition under which HandleTXInt reports and repairs pointers that disagree. */
  predicate NeedsRepair(s: Smap)
  {
    s.indexStart == s.indexEnd == s.indexDma && s.ptrStart != s.ptrEnd
  }

  function HandleTxInt(s: Smap): Smap
  {
    var t := ReleaseSent(s);
    if NeedsRepair(t) then t.(ptrStart := t.ptrEnd) else t
  }

  /** What HandleTXInt returns: 2 when nothing is in flight any more, else 0 if a descriptor it looked at has error
      bits, else 1. clean is whether it has seen none so far. */
  function TxIntResult(s: Smap, clean: bool): int
    decreases (s.indexEnd - s.indexStart) % BDS
  {
    if s.indexStart == s.indexEnd then (if s.indexStart == s.indexDma then 2 else if clean then 1 else 0)
    else
      var still := clean && !s.bd[s.indexStart].Error();
      if s.bd[s.indexStart].Ready() then (if still then 1 else 0) else TxIntResult(Release(s), still)
  }
}
