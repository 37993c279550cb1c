/** The words of received frames, on their way from the chip's memory to the receive buffer: what every step does to
    them, and the invariant that a completed transfer keeps. A transfer without a whole block is read from wherever the
    chip's read pointer is, which is right as long as no frame before it was dropped since the last one with a block. */
module RxWords {
  import opened DmaQueue
  import opened DmaShare
  import opened BumpRing
  import opened SmapBd
  import opened SmapRx
  import RxFifo
  import opened RxInvariant
  import RxEffects

  const BUFWORDS := 8192

  type Word = U32
  type Buffer = b: seq<Word> | |b| == BUFWORDS witness seq(BUFWORDS, _ => 0)

  /** The receiver, the chip's memory and read pointer, the receive buffer, and the words that the engine has moved for
      the transfer it runs. What the chip wrote to the descriptors and to its memory, frame by frame, is history. */
  datatype Rx = Rx(s: Smap, mem: RxFifo.Memory, rdPtr: RxFifo.Ptr, buf: Buffer, moved: nat,
                   bds: seq<Bd>, stored: seq<seq<Word>>)

  function Start(base: Base, mem: RxFifo.Memory, buf: Buffer): Rx
  {
    Rx(Init(base), mem, 0, buf, 0, [], [])
  }

  function Count(len: U16): nat
  {
    (len + 3) / 4
  }

  /** Where the driver has the chip read a frame. */
  function PtrOf(pointer: RxPtr): RxFifo.Ptr
  {
    pointer % RxFifo.RXBUFSIZE
  }

  /** Where the chip has stored the frame of a descriptor. */
  function ChipPlace(pointer: U16): RxFifo.Ptr
  {
    pointer % 0x4000 / 4 * 4
  }

  /** The driver has the chip read there. */
  lemma {:induction false} ReadsChipPlace(pointer: U16)
    ensures PtrOf(ReadPlace(pointer)) == ChipPlace(pointer)
  {
    RxEffects.ReadPlaceMeans(pointer);
  }

  /** The words of a frame in the chip's memory. */
  function Held(mem: RxFifo.Memory, bd: Bd): seq<Word>
  {
    RxFifo.Words(mem, ChipPlace(bd.pointer), Count(bd.length))
  }

  // ---------- copying ----------

  function Written(buf: Buffer, at: nat, ws: seq<Word>): Buffer
  {
    if at + |ws| <= BUFWORDS then buf[..at] + ws + buf[at + |ws|..] else buf
  }

  /** The place n words on. */
  function Onwards(ptr: RxFifo.Ptr, n: nat): RxFifo.Ptr
  {
    4 * RxFifo.Index(ptr, n)
  }

  predicate Blockless(len: U16)
  {
    Blocks(Aligned(len)) == 0
  }

  /** What the engine moves of a frame, in words. */
  function BlockWords(len: U16): (n: nat)
    ensures n <= Count(len) && (n == 0 <==> Blockless(len))
  {
    BlocksExactBelow8M(Aligned(len));
    32 * Blocks(Aligned(len))
  }

  /** Reads n words from the chip and stores them at word offset at of the buffer. */
  function Read(x: Rx, at: nat, n: nat): Rx
  {
    x.(buf := Written(x.buf, at, RxFifo.Words(x.mem, x.rdPtr, n)), rdPtr := Onwards(x.rdPtr, n))
  }

  /** What the engine moves for a transfer, in words, and where in the buffer it begins. */
  function InBlocks(r: Transfer): nat
  {
    32 * Blocks(r.size)
  }

  function Target(x: Rx, r: Transfer): nat
  {
    if r.addr >= x.s.base then (r.addr - x.s.base) / 4 else BUFWORDS
  }

  /** The engine has a word to move for the running transfer. */
  predicate CanMove(x: Rx)
  {
    x.s.queue != [] && x.s.queue[0].payload.Own? && x.moved < InBlocks(x.s.queue[0])
  }

  function MoveWord(x: Rx): Rx
    requires CanMove(x)
  {
    Read(x, Target(x, x.s.queue[0]) + x.moved, 1).(moved := x.moved + 1)
  }

  /** The post-DMA callback reads what the blocks leave over, and the done callback passes the frame on. */
  function FinishOne(x: Rx, r: Transfer): Rx
  {
    if r.payload.Own? then
      var j := r.payload.job;
      var n := BlockWords(j.len);
      Read(x, j.at / 4 + n, Count(j.len) - n).(s := Complete(x.s, r))
    else x
  }

  function FinishAll(x: Rx, rs: seq<Transfer>): Rx
    decreases |rs|
  {
    if rs == [] then x else FinishAll(FinishOne(x, rs[0]), rs[1..])
  }

  /** The pre-DMA callback points the chip at the frame. */
  function Begin(x: Rx): Rx
  {
    if x.s.queue != [] && x.s.queue[0].payload.Own? then x.(rdPtr := PtrOf(x.s.queue[0].payload.job.ptr), moved := 0)
    else x.(moved := 0)
  }

  /** A step of the DMA queue; started is whether it ends by looking at the head. */
  function Applied(x: Rx, o: Outcome<DmaShare.Payload<Job>>, started: bool): Rx
    requires Settled(o.queue)
  {
    var y := FinishAll(x.(s := x.s.(queue := o.queue)), o.done);
    if started then Begin(y) else y
  }

  function Transferring(x: Rx, r: Transfer): Rx
  {
    SubmitConserves(x.s.queue, r);
    Applied(x, Submit(x.s.queue, r), x.s.queue == [])
  }

  function Interrupted(x: Rx): Rx
  {
    InterruptConserves(x.s.queue);
    if x.s.queue == [] then x else Applied(x, Interrupt(x.s.queue), true)
  }

  function Handled(x: Rx, granted: bool): Rx
  {
    if Delivers(x.s, granted) then Transferring(x.(s := Allotted(x.s)), RxTransfer(x.s.base, Allotment(x.s)))
    else x.(s := HandleRx(x.s, granted))
  }

  function HandledAll(x: Rx, pool: nat -> bool, n: nat): Rx
    decreases n
  {
    if n == 0 then x else HandledAll(Handled(x, pool(x.s.visited)), pool, n - 1)
  }

  // ---------- runs ----------

  datatype Happening =
    | Storing(bd: Bd, mem: RxFifo.Memory)
    | Chip(pool: nat -> bool)
    | Word
    | Dma
    | Client(r: Transfer)

  /** Where frame u begins when the chip stores each frame behind the one before it. */
  function PlaceOf(bds: seq<Bd>, u: nat): RxFifo.Ptr
    requires u <= |bds|
  {
    if u == 0 then 0 else Onwards(PlaceOf(bds, u - 1), Count(bds[u - 1].length))
  }

  /** The chip leaves alone what it has stored for descriptors that it has not got back. */
  predicate Spares(x: Rx, mem: RxFifo.Memory)
  {
    forall d: Index | !x.s.bd[d].Empty() && 0 <= Last(x.s.filled, d) < |x.bds| ::
      var bd := x.bds[Last(x.s.filled, d)]; Held(mem, bd) == Held(x.mem, bd)
  }

  /** The engine raises its interrupt when it has moved every block. */
  predicate EngineDone(x: Rx)
  {
    x.s.queue != [] && x.s.queue[0].payload.Own? ==> x.moved == InBlocks(x.s.queue[0])
  }

  predicate CanHappen(x: Rx, h: Happening)
  {
    match h
    case Storing(bd, mem) =>
      Enabled(x.s, Stored(bd)) && ChipPlace(bd.pointer) == PlaceOf(x.bds, |x.bds|) && Spares(x, mem)
    case Chip(pool) => Enabled(x.s, RxIrq(pool))
    case Word => CanMove(x)
    case Dma => EngineDone(x)
    case Client(r) => Enabled(x.s, Foreigner(r))
  }

  function Happened(x: Rx, h: Happening): Rx
    requires h.Word? ==> CanMove(x)
  {
    match h
    case Storing(bd, mem) => x.(s := Fill(x.s, bd), mem := mem, bds := x.bds + [bd],
      stored := x.stored + [Held(mem, bd)])
    case Chip(pool) => HandledAll(x, pool, Unvisited(x.s))
    case Word => MoveWord(x)
    case Dma => Interrupted(x)
    case Client(r) => Transferring(x, r)
  }

  predicate Runs(x: Rx, hs: seq<Happening>, y: Rx)
    decreases |hs|
  {
    if hs == [] then x == y else CanHappen(x, hs[0]) && Runs(Happened(x, hs[0]), hs[1..], y)
  }

  // ---------- the copying machine does what the receiver does ----------

  lemma {:induction false} FinishAllRefines(x: Rx, rs: seq<Transfer>)
    ensures FinishAll(x, rs).s == CompleteAll(x.s, rs)
    decreases |rs|
  {
    if rs != [] { FinishAllRefines(FinishOne(x, rs[0]), rs[1..]); }
  }

  lemma {:induction false} AppliedRefines(x: Rx, o: Outcome<DmaShare.Payload<Job>>, started: bool)
    requires Settled(o.queue)
    ensures Applied(x, o, started).s == Apply(x.s, o)
  {
    FinishAllRefines(x.(s := x.s.(queue := o.queue)), o.done);
  }

  lemma {:induction false} TransferringRefines(x: Rx, r: Transfer)
    ensures Transferring(x, r).s == DmaTransfer(x.s, r)
  {
    hide Applied, Apply;
    SubmitConserves(x.s.queue, r);
    AppliedRefines(x, Submit(x.s.queue, r), x.s.queue == []);
  }

  lemma {:induction false} InterruptedRefines(x: Rx)
    ensures Interrupted(x).s == DmaInterrupt(x.s)
  {
    InterruptConserves(x.s.queue);
    AppliedRefines(x, Interrupt(x.s.queue), true);
  }

  lemma {:induction false} HandledRefines(x: Rx, granted: bool)
    ensures Handled(x, granted).s == HandleRx(x.s, granted)
  {
    hide Transferring, DmaTransfer;
    if Delivers(x.s, granted) { TransferringRefines(x.(s := Allotted(x.s)), RxTransfer(x.s.base, Allotment(x.s))); }
  }

  lemma {:induction false} HandledAllRefines(x: Rx, pool: nat -> bool, n: nat)
    ensures HandledAll(x, pool, n).s == Rounds(x.s, pool, n)
    decreases n
  {
    hide Handled, HandleRx;
    if n > 0 {
      HandledRefines(x, pool(x.s.visited));
      HandledAllRefines(Handled(x, pool(x.s.visited)), pool, n - 1);
    }
  }

  /** Every run is one of the receiver, in which the words moved by the engine do not show. */
  lemma {:induction false} HappenedRefines(x: Rx, h: Happening)
    requires CanHappen(x, h)
    ensures h == Word ==> Happened(x, h).s == x.s
    ensures h != Word ==>
              var e := match h case Storing(bd, _) => Stored(bd) case Chip(pool) => RxIrq(pool)
                               case Client(r) => Foreigner(r) case _ => DmaIrq;
              Enabled(x.s, e) && Happened(x, h).s == Happen(x.s, e)
  {
    hide Transferring, Interrupted, HandledAll;
    match h {
      case Storing(_, _) =>
      case Chip(pool) => HandledAllRefines(x, pool, Unvisited(x.s));
      case Word =>
      case Dma => InterruptedRefines(x);
      case Client(r) => TransferringRefines(x, r);
    }
  }

  // ---------- the invariant ----------

  /** The frames that were or will be passed on, in order. */
  function JobsOf(rs: seq<Transfer>): seq<Job>
  {
    if rs == [] then [] else (if rs[0].payload.Own? then [rs[0].payload.job] else []) + JobsOf(rs[1..])
  }

  function Jobs(s: Smap, mine: seq<Transfer>): seq<Job>
  {
    s.inputs + JobsOf(mine)
  }

  /** The frame has a block, or every frame since the last one passed on with a block has been passed on. */
  predicate Straight(js: seq<Job>, m: nat)
    requires m < |js|
    decreases m
  {
    || !Blockless(js[m].len)
    || if m == 0 then js[0].number == 0 else js[m].number == js[m - 1].number + 1 && Straight(js, m - 1)
  }

  /** Unvisited descriptors are as the chip wrote them, and what they and the ones being transferred stand for is in the
      chip's memory. */
  predicate OnChip(x: Rx)
  {
    && |x.bds| == x.s.filled == |x.stored|
    && (forall u | 0 <= u < |x.bds| :: ChipPlace(x.bds[u].pointer) == PlaceOf(x.bds, u))
    && (forall u | x.s.visited <= u < |x.bds| :: x.s.bd[u % BDS] == x.bds[u])
    && Intact(x.s, x.mem, x.bds, x.stored)
  }

  predicate Intact(s: Smap, mem: RxFifo.Memory, bds: seq<Bd>, stored: seq<seq<Word>>)
  {
    |bds| == |stored|
    && forall d: Index | !s.bd[d].Empty() && 0 <= Last(s.filled, d) < |bds| ::
         Held(mem, bds[Last(s.filled, d)]) == stored[Last(s.filled, d)]
  }

  /** A job is for the frame that the chip stored under its number, and has piece p of the buffer. */
  predicate JobFits(bds: seq<Bd>, j: Job, p: Piece)
  {
    && j.number < |bds| && j.len == bds[j.number].length && j.ptr == ReadPlace(bds[j.number].pointer)
    && p == Piece(j.at, Aligned(j.len), Aligned(j.len)) && j.at % 4 == 0
  }

  predicate InPieces(x: Rx, js: seq<Job>)
  {
    && |js| == |x.s.pieces| && x.s.dataPtr % 4 == 0 && |x.s.inputs| <= |js|
    && forall m | 0 <= m < |js| :: JobFits(x.bds, js[m], x.s.pieces[m])
  }

  /** The read pointer is behind the last frame that was read, if that was read from its place. */
  predicate Pointing(x: Rx, js: seq<Job>)
    requires |x.s.inputs| <= |js|
  {
    var c := |x.s.inputs|;
    if c == 0 then x.rdPtr == 0
    else Straight(js, c - 1) ==> x.rdPtr == Onwards(PtrOf(js[c - 1].ptr), Count(js[c - 1].len))
  }

  /** The frame is in its place in the buffer, word for word. */
  predicate InBuffer(buf: Buffer, j: Job, stored: seq<seq<Word>>)
  {
    var at, n := j.at / 4, Count(j.len);
    at + n <= BUFWORDS && j.number < |stored| && buf[at..at + n] == stored[j.number]
  }

  /** How far the engine has got with the first of the receiver's transfers. */
  datatype Progress = Waiting | Begun(moved: nat)

  function ProgressOf(x: Rx): Progress
  {
    if x.s.queue != [] && x.s.queue[0].payload.Own? then Begun(x.moved) else Waiting
  }

  /** The first n words of the frame are in its place in the buffer. */
  predicate PartInBuffer(buf: Buffer, j: Job, stored: seq<seq<Word>>, n: nat)
  {
    var at := j.at / 4;
    at + n <= BUFWORDS && j.number < |stored| && n <= |stored[j.number]| && buf[at..at + n] == stored[j.number][..n]
  }

  /** Before the next frame is begun the read pointer is where the last one left it; then it moves through the frame. */
  predicate Reading(x: Rx, js: seq<Job>, p: Progress)
    requires |x.s.inputs| <= |js|
  {
    match p
    case Waiting => Pointing(x, js)
    case Begun(m) =>
      var c := |x.s.inputs|;
      && c < |js| && m <= BlockWords(js[c].len) && x.rdPtr == Onwards(PtrOf(js[c].ptr), m)
      && PartInBuffer(x.buf, js[c], x.stored, m)
  }

  /** The last 20 frames passed on are in the buffer, or the last 19 once the next one is begun. */
  predicate Kept(x: Rx, js: seq<Job>, p: Progress)
    requires |x.s.inputs| <= |js|
  {
    var n := if p == Waiting then 20 else 19;
    forall m | 0 <= m < |x.s.inputs| && |x.s.inputs| - m <= n && Straight(js, m) :: InBuffer(x.buf, js[m], x.stored)
  }

  predicate Good(x: Rx, mine: seq<Transfer>, p: Progress)
  {
    var js := Jobs(x.s, mine);
    OnChip(x) && InPieces(x, js) && Reading(x, js, p) && Kept(x, js, p)
  }

  /** The invariant between steps. */
  predicate Now(x: Rx)
  {
    Good(x, x.s.queue, ProgressOf(x))
  }

  // ---------- a transfer completes ----------

  lemma {:induction false} CountIsAligned(len: U16)
    ensures Aligned(len) == 4 * Count(len) && (Aligned(len) / 4 == Count(len))
  {
  }

  /** A frame without a block is read from its place if it is straight. */
  lemma {:induction false} ReadsOwnPlace(x: Rx, js: seq<Job>)
    requires |x.s.inputs| < |js| && OnChip(x) && InPieces(x, js) && Pointing(x, js)
    requires Straight(js, |x.s.inputs|) && Blockless(js[|x.s.inputs|].len)
    ensures x.rdPtr == PtrOf(js[|x.s.inputs|].ptr)
  {
    hide OnChip, InPieces, Blockless, Onwards, PtrOf, Count, Straight, PlaceOf;
    var c := |x.s.inputs|;
    JobPlace(x, js, c);
    StraightMeans(js, c);
    if c > 0 {
      JobPlace(x, js, c - 1);
      BeginNext(x.bds, js[c - 1].number);
    } else {
      BeginFirst(x.bds);
    }
  }

  lemma {:induction false} StraightMeans(js: seq<Job>, m: nat)
    requires m < |js| && Straight(js, m) && Blockless(js[m].len)
    ensures m == 0 ==> js[0].number == 0
    ensures m > 0 ==> js[m].number == js[m - 1].number + 1 && Straight(js, m - 1)
  {
  }

  /** A job's place is where the chip began its frame. */
  lemma {:induction false} JobPlace(x: Rx, js: seq<Job>, k: nat)
    requires OnChip(x) && InPieces(x, js) && k < |js|
    ensures var j := js[k];
            j.number < |x.bds| && PtrOf(j.ptr) == PlaceOf(x.bds, j.number) && j.len == x.bds[j.number].length
  {
    assert JobFits(x.bds, js[k], x.s.pieces[k]);
    ReadsChipPlace(x.bds[js[k].number].pointer);
    hide Intact, InPieces, PlaceOf, PtrOf;
  }

  lemma {:induction false} BeginFirst(bds: seq<Bd>)
    ensures PlaceOf(bds, 0) == 0
  {
  }

  lemma {:induction false} BeginNext(bds: seq<Bd>, u: nat)
    requires u < |bds|
    ensures PlaceOf(bds, u + 1) == Onwards(PlaceOf(bds, u), Count(bds[u].length))
  {
  }

  lemma {:induction false} WrittenHolds(buf: Buffer, at: nat, ws: seq<Word>)
    requires at + |ws| <= BUFWORDS
    ensures Written(buf, at, ws)[at..at + |ws|] == ws
    ensures forall i | 0 <= i < BUFWORDS && !(at <= i < at + |ws|) :: Written(buf, at, ws)[i] == buf[i]
  {
  }

  lemma {:induction false} WrittenElsewhere(buf: Buffer, at: nat, ws: seq<Word>, lo: nat, n: nat)
    requires at + |ws| <= BUFWORDS && lo + n <= BUFWORDS && (lo + n <= at || at + |ws| <= lo)
    ensures Written(buf, at, ws)[lo..lo + n] == buf[lo..lo + n]
  {
    WrittenHolds(buf, at, ws);
    hide Written;
  }

  /** Words written behind the first n of a target continue it. */
  lemma {:induction false} WriteExtends(buf: Buffer, at: nat, n: nat, ws: seq<Word>, target: seq<Word>)
    requires at + n + |ws| <= BUFWORDS && n + |ws| <= |target|
    requires buf[at..at + n] == target[..n] && ws == target[n..n + |ws|]
    ensures Written(buf, at + n, ws)[at..at + n + |ws|] == target[..n + |ws|]
  {
    hide Written;
    var t := Written(buf, at + n, ws);
    WrittenHolds(buf, at + n, ws);
    WrittenElsewhere(buf, at + n, ws, at, n);
    assert t[at..at + n + |ws|] == t[at..at + n] + t[at + n..at + n + |ws|];
    assert target[..n + |ws|] == target[..n] + target[n..n + |ws|];
  }

  lemma {:induction false} AfterZero(ptr: RxFifo.Ptr)
    ensures Onwards(ptr, 0) == ptr
  {
  }

  lemma {:induction false} AfterAfter(ptr: RxFifo.Ptr, a: nat, b: nat)
    ensures Onwards(Onwards(ptr, a), b) == Onwards(ptr, a + b)
  {
    assert Onwards(ptr, a) / 4 == (ptr / 4 + a) % RxFifo.RXWORDS;
  }

  lemma {:induction false} WordsFrom(mem: RxFifo.Memory, ptr: RxFifo.Ptr, a: nat, b: nat, n: nat)
    requires a + b <= n
    ensures RxFifo.Words(mem, Onwards(ptr, a), b) == RxFifo.Words(mem, ptr, n)[a..a + b]
  {
    forall i | 0 <= i < b
      ensures RxFifo.Index(Onwards(ptr, a), i) == RxFifo.Index(ptr, a + i)
    {
      AfterAfter(ptr, a, i);
    }
  }

  /** Reading on from where the engine or the callback is brings the next words of the frame. */
  lemma {:induction false} ReadContinues(x: Rx, j: Job, m: nat, n: nat)
    requires j.at / 4 + Count(j.len) <= BUFWORDS && m + n <= Count(j.len)
    requires j.number < |x.stored| && RxFifo.Words(x.mem, PtrOf(j.ptr), Count(j.len)) == x.stored[j.number]
    requires x.rdPtr == Onwards(PtrOf(j.ptr), m) && PartInBuffer(x.buf, j, x.stored, m)
    ensures var y := Read(x, j.at / 4 + m, n);
            y.rdPtr == Onwards(PtrOf(j.ptr), m + n) && PartInBuffer(y.buf, j, x.stored, m + n)
  {
    var ws := RxFifo.Words(x.mem, x.rdPtr, n);
    assert |ws| == n && |x.stored[j.number]| == Count(j.len);
    hide RxFifo.Words, Onwards, Written, Count, PtrOf;
    AfterAfter(PtrOf(j.ptr), m, n);
    WordsFrom(x.mem, PtrOf(j.ptr), m, n, Count(j.len));
    WriteExtends(x.buf, j.at / 4, m, ws, x.stored[j.number]);
  }

  /** Reading a part of one frame leaves another that does not touch it. */
  lemma {:induction false} ReadLeaves(x: Rx, j: Job, i: Job, m: nat, n: nat)
    requires m + n <= Count(j.len) && j.at / 4 + Count(j.len) <= BUFWORDS && i.at / 4 + Count(i.len) <= BUFWORDS
    requires j.at / 4 + Count(j.len) <= i.at / 4 || i.at / 4 + Count(i.len) <= j.at / 4
    requires InBuffer(x.buf, i, x.stored)
    ensures InBuffer(Read(x, j.at / 4 + m, n).buf, i, x.stored)
  {
    var ws := RxFifo.Words(x.mem, x.rdPtr, n);
    assert |ws| == n;
    hide RxFifo.Words, Onwards, Count, Written;
    WrittenElsewhere(x.buf, j.at / 4 + m, ws, i.at / 4, Count(i.len));
  }

  /** Reading a part of the next frame keeps the 19 before it. */
  lemma {:induction false} ReadKeeps(x: Rx, js: seq<Job>, k: nat, m: nat, n: nat)
    requires |x.s.inputs| < |js| && InPieces(x, js) && Buffered(x.s) && m + n <= Count(js[|x.s.inputs|].len)
    requires k < |x.s.inputs| && |x.s.inputs| - k <= 19 && InBuffer(x.buf, js[k], x.stored)
    ensures InBuffer(Read(x, js[|x.s.inputs|].at / 4 + m, n).buf, js[k], x.stored)
  {
    hide Buffered, InPieces, InBuffer, Read, Count;
    var c := |x.s.inputs|;
    JobInBuffer(x, js, c);
    JobInBuffer(x, js, k);
    JobsDisjoint(x, js, k, c);
    ReadLeaves(x, js[c], js[k], m, n);
  }

  /** When the first transfer is about to be finished what the engine had to move is there, if the frame is straight. */
  lemma {:induction false} TailIsNext(x: Rx, js: seq<Job>, p: Progress)
    requires |x.s.inputs| < |js| && OnChip(x) && InPieces(x, js) && Buffered(x.s) && Reading(x, js, p)
    requires var n := BlockWords(js[|x.s.inputs|].len); if p == Waiting then n == 0 else p.moved == n
    requires Straight(js, |x.s.inputs|)
    ensures var j := js[|x.s.inputs|];
            var n := BlockWords(j.len);
            x.rdPtr == Onwards(PtrOf(j.ptr), n) && PartInBuffer(x.buf, j, x.stored, n)
  {
    hide OnChip, InPieces, Buffered, Pointing, Onwards, PtrOf, Straight, Count, Blockless;
    if p == Waiting {
      ReadsOwnPlace(x, js);
      AfterZero(x.rdPtr);
      JobInBuffer(x, js, |x.s.inputs|);
      JobPlace(x, js, |x.s.inputs|);
      StoredFor(x);
    }
  }

  lemma {:induction false} StoredFor(x: Rx)
    requires OnChip(x)
    ensures |x.stored| == |x.bds| == x.s.filled
  {
  }

  lemma {:induction false} JobInBuffer(x: Rx, js: seq<Job>, k: nat)
    requires k < |js| && InPieces(x, js) && Buffered(x.s)
    ensures js[k].at / 4 + Count(js[k].len) <= BUFWORDS
  {
    assert JobFits(x.bds, js[k], x.s.pieces[k]);
    CountIsAligned(js[k].len);
    PieceInBuffer(x.s, k);
    hide Buffered, Aligned, Count;
  }

  lemma {:induction false} JobsDisjoint(x: Rx, js: seq<Job>, m: nat, c: nat)
    requires m < c < |js| && c - m <= 19 && InPieces(x, js) && Buffered(x.s)
    ensures var a, b := js[m].at / 4, js[c].at / 4; a + Count(js[m].len) <= b || b + Count(js[c].len) <= a
  {
    assert JobFits(x.bds, js[m], x.s.pieces[m]) && JobFits(x.bds, js[c], x.s.pieces[c]);
    CountIsAligned(js[m].len);
    CountIsAligned(js[c].len);
    LastFramesDisjoint(x.s);
    assert Disjoint(x.s.pieces[m].at, x.s.pieces[m].size, x.s.pieces[c].at, x.s.pieces[c].size);
    hide Buffered, Aligned, Count;
  }

  lemma {:induction false} PieceInBuffer(s: Smap, k: nat)
    requires Buffered(s) && k < |s.pieces|
    ensures s.pieces[k].at + s.pieces[k].size <= RX_BUFFER_SIZE
  {
    Each(RX_BUFFER_SIZE, MAXFRAME, 0, s.pieces, k);
  }

  /** The first of the receiver's transfers that complete is for a frame that the chip still holds. */
  lemma {:induction false} FirstIsHeld(s: Smap, rs: seq<Transfer>)
    requires Core(s, rs) && rs != [] && rs[0].payload.Own?
    ensures var j := rs[0].payload.job;
            && !s.bd[j.index].Empty() && Last(s.filled, j.index) == j.number && j.index == j.number % BDS
            && j.number < s.visited <= s.filled <= j.number + BDS
  {
    var all, j := rs + s.queue, rs[0].payload.job;
    var mine := Share(all);
    assert all[0] == rs[0] && mine[0] == rs[0];
    LastFacts(s.filled, j.number, j.index);
    hide Last, HandedOut, InOrder, Buffered, Share;
    assert Waits(mine, j.number);
  }

  lemma {:induction false} JobsCons(s: Smap, rs: seq<Transfer>)
    requires rs != []
    ensures rs[0].payload.Own? ==> var j := rs[0].payload.job;
              && |s.inputs| < |Jobs(s, rs)| && Jobs(s, rs)[|s.inputs|] == j
              && Jobs(Complete(s, rs[0]), rs[1..]) == Jobs(s, rs)
    ensures rs[0].payload.Other? ==> Jobs(s, rs[1..]) == Jobs(s, rs)
  {
    if rs[0].payload.Own? {
      var j := rs[0].payload.job;
      assert (s.inputs + [j]) + JobsOf(rs[1..]) == s.inputs + ([j] + JobsOf(rs[1..]));
    } else {
      assert [] + JobsOf(rs[1..]) == JobsOf(rs[1..]);
    }
  }

  /** No frame from visited up to filled has descriptor d. */
  predicate Elsewhere(d: Index, visited: nat, filled: nat)
  {
    forall u | visited <= u < filled :: u % BDS != d
  }

  /** Giving back a visited descriptor leaves the chip's frames as they are. */
  lemma {:induction false} ReturnKeepsChip(x: Rx, s: Smap, d: Index)
    requires OnChip(x) && s.filled == x.s.filled && x.s.visited <= s.visited
    requires Elsewhere(d, s.visited, s.filled)
    requires s.bd == x.s.bd[d := x.s.bd[d].(ctrl := EMPTY)]
    ensures OnChip(x.(s := s))
  {
    hide Last, Held, PlaceOf;
  }

  lemma {:induction false} VisitedIsElsewhere(u: nat, d: Index, visited: nat, filled: nat)
    requires u < visited && filled <= u + BDS && d == u % BDS
    ensures Elsewhere(d, visited, filled)
  {
    forall v | visited <= v < filled
      ensures v % BDS != u % BDS
    {
      SameLap(u, v, filled);
    }
  }

  /** The first transfer is as far as it gets before its completion. */
  predicate AtEnd(r: Transfer, p: Progress)
  {
    if p == Waiting then r.payload.Own? ==> BlockWords(r.payload.job.len) == 0
    else r.payload.Own? && p.moved == BlockWords(r.payload.job.len)
  }

  lemma {:induction false} FinishKeeps(x: Rx, rs: seq<Transfer>, p: Progress)
    requires Core(x.s, rs) && rs != [] && Good(x, rs + x.s.queue, p) && AtEnd(rs[0], p)
    ensures var y := FinishOne(x, rs[0]); Good(y, rs[1..] + x.s.queue, Waiting)
  {
    hide Core, Read, Complete, OnChip, InPieces, Reading, Kept, Jobs, JobsOf, Last, Count;
    var all := rs + x.s.queue;
    assert all[0] == rs[0] && all[1..] == rs[1..] + x.s.queue;
    JobsCons(x.s, all);
    if rs[0].payload.Own? {
      FirstIsHeld(x.s, rs);
      CoreMeans(x.s, rs);
      FinishOwn(x, rs[0], Jobs(x.s, all), p);
      FinishMeans(x, rs[0]);
    }
  }

  lemma {:induction false} FinishMeans(x: Rx, r: Transfer)
    requires r.payload.Own?
    ensures var y, j := FinishOne(x, r), r.payload.job;
            var t := Read(x, j.at / 4 + BlockWords(j.len), Count(j.len) - BlockWords(j.len));
            y.s == Complete(x.s, r) && y == x.(s := y.s, buf := t.buf, rdPtr := t.rdPtr)
  {
    hide BlockWords, Count, RxFifo.Words;
  }

  lemma {:induction false} CoreMeans(s: Smap, rs: seq<Transfer>)
    requires Core(s, rs)
    ensures Buffered(s)
  {
    hide Pending, Accounted, InOrder, Buffered;
  }

  lemma {:induction false} FinishOwn(x: Rx, r: Transfer, js: seq<Job>, p: Progress)
    requires OnChip(x) && InPieces(x, js) && Reading(x, js, p) && Kept(x, js, p) && Buffered(x.s)
    requires r.payload.Own? && |x.s.inputs| < |js| && js[|x.s.inputs|] == r.payload.job && AtEnd(r, p)
    requires var j := r.payload.job;
             && !x.s.bd[j.index].Empty() && Last(x.s.filled, j.index) == j.number && j.index == j.number % BDS
             && j.number < x.s.visited <= x.s.filled <= j.number + BDS
    ensures var y := FinishOne(x, r); OnChip(y) && InPieces(y, js) && Reading(y, js, Waiting) && Kept(y, js, Waiting)
  {
    hide OnChip, InPieces, Pointing, PartInBuffer, Kept, Read, Straight, RxFifo.Words, Count, Last, Onwards, PtrOf,
         FinishOne, Reading, Buffered;
    var y, j := FinishOne(x, r), r.payload.job;
    FinishMeans(x, r);
    VisitedIsElsewhere(j.number, j.index, x.s.visited, x.s.filled);
    ReturnKeepsChip(x, y.s, j.index);
    CopyKeepsChip(x.(s := y.s), y);
    PiecesMean(x, js);
    FinishKeepsPieces(x, y, js);
    if Straight(js, |x.s.inputs|) { FinishBrings(x, r, js, p); }
    FinishPoints(x, r, js);
    FinishKeepsBuffer(x, r, js, p);
    WaitingIsPointing(y, js);
  }

  lemma {:induction false} WaitingIsPointing(x: Rx, js: seq<Job>)
    requires |x.s.inputs| <= |js| && Pointing(x, js)
    ensures Reading(x, js, Waiting)
  {
  }

  /** The rest of a straight frame is read from its place. */
  lemma {:induction false} FinishBrings(x: Rx, r: Transfer, js: seq<Job>, p: Progress)
    requires OnChip(x) && InPieces(x, js) && Reading(x, js, p) && Buffered(x.s)
    requires r.payload.Own? && |x.s.inputs| < |js| && js[|x.s.inputs|] == r.payload.job && AtEnd(r, p)
    requires var j := r.payload.job; !x.s.bd[j.index].Empty() && Last(x.s.filled, j.index) == j.number
    requires Straight(js, |x.s.inputs|)
    ensures var y, j := FinishOne(x, r), r.payload.job;
            && y.rdPtr == Onwards(PtrOf(j.ptr), Count(j.len)) && PartInBuffer(y.buf, j, x.stored, Count(j.len))
            && j.number < |x.stored| && |x.stored[j.number]| == Count(j.len)
  {
    hide OnChip, InPieces, PartInBuffer, Read, Straight, RxFifo.Words, Count, Last, Onwards, PtrOf,
         FinishOne, Reading, Buffered;
    var j := r.payload.job;
    FinishMeans(x, r);
    TailIsNext(x, js, p);
    HeldWords(x, js);
    JobInBuffer(x, js, |x.s.inputs|);
    ReadContinues(x, j, BlockWords(j.len), Count(j.len) - BlockWords(j.len));
  }

  lemma {:induction false} PiecesMean(x: Rx, js: seq<Job>)
    requires InPieces(x, js)
    ensures |x.s.inputs| <= |js| && x.s.dataPtr % 4 == 0
  {
  }

  lemma {:induction false} FinishKeepsPieces(x: Rx, y: Rx, js: seq<Job>)
    requires InPieces(x, js) && |y.s.inputs| <= |js|
    requires y.s.pieces == x.s.pieces && y.s.dataPtr % 4 == 0 && y.bds == x.bds
    ensures InPieces(y, js)
  {
    hide JobFits;
  }

  lemma {:induction false} FinishPoints(x: Rx, r: Transfer, js: seq<Job>)
    requires r.payload.Own? && |x.s.inputs| < |js| && js[|x.s.inputs|] == r.payload.job
    requires var j := r.payload.job;
             Straight(js, |x.s.inputs|) ==> FinishOne(x, r).rdPtr == Onwards(PtrOf(j.ptr), Count(j.len))
    ensures Pointing(FinishOne(x, r), js)
  {
    hide Straight, RxFifo.Words, Onwards, Written, Count, PtrOf;
  }

  lemma {:induction false} FinishKeepsBuffer(x: Rx, r: Transfer, js: seq<Job>, p: Progress)
    requires InPieces(x, js) && Kept(x, js, p) && Buffered(x.s)
    requires r.payload.Own? && |x.s.inputs| < |js| && js[|x.s.inputs|] == r.payload.job
    requires var j := r.payload.job;
             Straight(js, |x.s.inputs|) ==>
               && PartInBuffer(FinishOne(x, r).buf, j, x.stored, Count(j.len))
               && j.number < |x.stored| && |x.stored[j.number]| == Count(j.len)
    ensures Kept(FinishOne(x, r), js, Waiting)
  {
    hide Read, Straight, InBuffer, InPieces, Buffered, Count, PartInBuffer;
    var y, j, c := FinishOne(x, r), r.payload.job, |x.s.inputs|;
    FinishMeans(x, r);
    FinishBuffer(x, r);
    forall m | 0 <= m < |y.s.inputs| && |y.s.inputs| - m <= 20 && Straight(js, m)
      ensures InBuffer(y.buf, js[m], y.stored)
    {
      if m < c {
        ReadKeeps(x, js, m, BlockWords(j.len), Count(j.len) - BlockWords(j.len));
      } else {
        AllOfIt(y.buf, j, x.stored);
      }
    }
  }

  lemma {:induction false} FinishBuffer(x: Rx, r: Transfer)
    requires r.payload.Own?
    ensures var j := r.payload.job;
            var y := FinishOne(x, r);
            y.buf == Read(x, j.at / 4 + BlockWords(j.len), Count(j.len) - BlockWords(j.len)).buf && y.stored == x.stored
  {
  }

  lemma {:induction false} AllOfIt(buf: Buffer, j: Job, stored: seq<seq<Word>>)
    requires PartInBuffer(buf, j, stored, Count(j.len)) && |stored[j.number]| == Count(j.len)
    ensures InBuffer(buf, j, stored)
  {
    hide Count;
    assert stored[j.number][..Count(j.len)] == stored[j.number];
  }

  lemma {:induction false} CopyKeepsChip(x: Rx, y: Rx)
    requires OnChip(x) && y == x.(buf := y.buf, rdPtr := y.rdPtr, moved := y.moved)
    ensures OnChip(y)
  {
  }

  lemma {:induction false} HeldWords(x: Rx, js: seq<Job>)
    requires |x.s.inputs| < |js| && OnChip(x) && InPieces(x, js)
    requires var j := js[|x.s.inputs|]; !x.s.bd[j.index].Empty() && Last(x.s.filled, j.index) == j.number
    ensures var j := js[|x.s.inputs|];
            && j.number < |x.stored| && RxFifo.Words(x.mem, PtrOf(j.ptr), Count(j.len)) == x.stored[j.number]
            && |x.stored[j.number]| == Count(j.len)
  {
    hide Last, PlaceOf, PtrOf, ReadPlace, ChipPlace, RxFifo.Words, Count;
    var c := |x.s.inputs|;
    assert JobFits(x.bds, js[c], x.s.pieces[c]);
    var bd := x.bds[js[c].number];
    ReadsChipPlace(bd.pointer);
    HeldLength(x.mem, bd);
  }

  lemma {:induction false} HeldLength(mem: RxFifo.Memory, bd: Bd)
    ensures |Held(mem, bd)| == Count(bd.length)
  {
  }

  lemma {:induction false} FinishAllKeeps(x: Rx, rs: seq<Transfer>, p: Progress)
    requires Core(x.s, rs) && Good(x, rs + x.s.queue, p)
    requires if rs == [] then p == Waiting else AtEnd(rs[0], p) && Instant(rs[1..])
    ensures Good(FinishAll(x, rs), x.s.queue, Waiting)
    decreases |rs|
  {
    hide Core, Good, AtEnd, Instant;
    if rs == [] {
      assert [] + x.s.queue == x.s.queue;
    } else {
      FinishKeeps(x, rs, p);
      CompleteKeeps(x.s, rs);
      if rs[1..] != [] { InstantAtEnd(Complete(x.s, rs[0]), rs[1..]); }
      FinishSame(x, rs[0]);
      FinishAllKeeps(FinishOne(x, rs[0]), rs[1..], Waiting);
    }
  }

  lemma {:induction false} FinishSame(x: Rx, r: Transfer)
    ensures FinishOne(x, r).s == Complete(x.s, r) && Complete(x.s, r).queue == x.s.queue
  {
  }

  /** Transfers without a block are not begun before they complete. */
  lemma {:induction false} InstantAtEnd(s: Smap, rs: seq<Transfer>)
    requires Core(s, rs) && rs != [] && Instant(rs)
    ensures AtEnd(rs[0], Waiting) && Instant(rs[1..])
  {
    if rs[0].payload.Own? { SizeOfFirst(s, rs); }
    assert forall i | 0 <= i < |rs[1..]| :: rs[1..][i] == rs[i + 1];
    hide Core;
  }

  lemma {:induction false} SizeOfFirst(s: Smap, rs: seq<Transfer>)
    requires Core(s, rs) && rs != [] && rs[0].payload.Own?
    ensures rs[0].size == Aligned(rs[0].payload.job.len) && rs[0].addr == s.base + rs[0].payload.job.at
  {
    hide Accounted, InOrder, Buffered, Aligned;
    var all := rs + s.queue;
    assert all[0] == rs[0] && Share(all)[0] == rs[0];
  }
}
