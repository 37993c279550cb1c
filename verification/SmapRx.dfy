/** The receive side of smap.c as functions on values: 64 descriptors that the chip fills in ring order and the
    driver gives back, at once when it drops a frame and when its DMA transfer is complete otherwise. */
module SmapRx {
  import opened DmaQueue
  import opened BumpRing
  import opened SmapBd
  import DmaShare

  const EMPTY := 0x8000
  const RXMINSIZE := 14
  const RXMAXSIZE := 1518
  const RX_BUFFER_SIZE := 32768
  const RXBUFBASE := 0x4000
  const RXBUFSIZE := 0x4000

  /** What the receiver has the DMA queue do for it: bring a frame to its place in the receive buffer. Frames are
      numbered as the chip stores them. */
  datatype Job = Job(number: nat, index: Index, at: nat, len: U16, ptr: RxPtr)

  /** A place in the chip's receive memory. */
  type RxPtr = x: int | 0 <= x < 0x1_0000 && x % 4 == 0

  type Transfer = DmaShare.Shared<Job>
  type Queue = q: seq<Transfer> | Settled(q)

  /** Where smap_rx_buffer lies. */
  type Base = x: int | 0 < x < 0x1_0000_0000 - RX_BUFFER_SIZE witness 1

  /** The descriptors, the driver's index and data pointer, the DMA queue, the writes to FRAME_DEC and the frames
      passed on. The frames filled by the chip and visited by the driver and the pieces of the receive buffer
      handed out are history. */
  datatype Smap = Smap(base: Base, bd: Bds, rxIndex: Index, dataPtr: nat, queue: Queue, decs: nat, inputs: seq<Job>,
                       filled: nat, visited: nat, pieces: seq<Piece>)

  function Init(base: Base): Smap
  {
    Smap(base, seq(BDS, _ => Bd(EMPTY, 0, 0)), 0, 0, [], 0, [], 0, 0, [])
  }

  /** The chip stores a frame, which it can do only where the descriptor is empty. */
  function Fill(s: Smap, bd: Bd): Smap
  {
    s.(bd := s.bd[s.filled % BDS := bd], filled := s.filled + 1)
  }

  /** Gives a descriptor back to the chip. */
  function Return(s: Smap, d: Index): Smap
  {
    s.(decs := s.decs + 1, bd := s.bd[d := s.bd[d].(ctrl := EMPTY)])
  }

  /** _rx_smap_done_callback. */
  function Complete(s: Smap, r: Transfer): Smap
  {
    if r.payload.Own? then Return(s, r.payload.job.index).(inputs := s.inputs + [r.payload.job]) else s
  }

  function CompleteAll(s: Smap, rs: seq<Transfer>): Smap
    decreases |rs|
  {
    if rs == [] then s else CompleteAll(Complete(s, rs[0]), rs[1..])
  }

  function Apply(s: Smap, o: Outcome<DmaShare.Payload<Job>>): Smap
    requires Settled(o.queue)
  {
    CompleteAll(s.(queue := o.queue), o.done)
  }

  function DmaTransfer(s: Smap, r: Transfer): Smap
  {
    SubmitConserves(s.queue, r);
    Apply(s, Submit(s.queue, r))
  }

  function DmaInterrupt(s: Smap): Smap
  {
    InterruptConserves(s.queue);
    Apply(s, Interrupt(s.queue))
  }

  // ---------- HandleRX ----------

  predicate Bad(bd: Bd)
  {
    bd.Error() || bd.length < RXMINSIZE || bd.length > RXMAXSIZE
  }

  function Visit(s: Smap): Smap
  {
    s.(rxIndex := Next(s.rxIndex), visited := s.visited + 1)
  }

  /** ((pointer - base) % size) & ~3 in C, whose remainder is negative for a pointer below the base. */
  function ReadPlace(pointer: U16): RxPtr
  {
    if pointer >= RXBUFBASE then (pointer - RXBUFBASE) % RXBUFSIZE / 4 * 4
    else if pointer == 0 then 0
    else (pointer - RXBUFBASE + 0x1_0000) / 4 * 4
  }

  /** The frame at the driver's index, to be brought to the given place. */
  function JobFor(s: Smap, at: nat): Job
  {
    var bd := s.bd[s.rxIndex];
    Job(s.visited, s.rxIndex, at, bd.length, ReadPlace(bd.pointer))
  }

  function RxTransfer(base: Base, job: Job): Transfer
    requires job.at + Aligned(job.len) <= RX_BUFFER_SIZE
  {
    Request(DmaShare.Own(job), base + job.at, Aligned(job.len), [])
  }

  /** The frame at the driver's index gets its piece of the buffer, and the driver moves on. */
  function Allotted(s: Smap): Smap
  {
    var n := Aligned(s.bd[s.rxIndex].length);
    var at := Place(RX_BUFFER_SIZE, s.dataPtr, n);
    Visit(s.(dataPtr := at + n, pieces := s.pieces + [Piece(at, n, n)]))
  }

  function Allotment(s: Smap): Job
  {
    JobFor(s, Place(RX_BUFFER_SIZE, s.dataPtr, Aligned(s.bd[s.rxIndex].length)))
  }

  /** HandleRX when the descriptor is not empty; granted is whether pbuf_alloc finds a buffer. */
  function HandleRx(s: Smap, granted: bool): Smap
  {
    var bd := s.bd[s.rxIndex];
    if Bad(bd) then Visit(Return(s, s.rxIndex))
    else if !granted then
      Visit(Return(s.(dataPtr := Place(RX_BUFFER_SIZE, s.dataPtr, Aligned(bd.length))), s.rxIndex))
    else DmaTransfer(Allotted(s), RxTransfer(s.base, Allotment(s)))
  }
}
