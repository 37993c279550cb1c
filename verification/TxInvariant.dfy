/** What holds of the transmitter in every reachable state, and why each of its steps keeps it. */
module TxInvariant {
  import opened DmaQueue
  import opened DmaShare
  import opened SmapBd
  import opened SmapTx
  import opened TxRing

  // ---------- the invariant ----------

  predicate WellFormedFrames(fs: seq<Frame>)
  {
    forall k | 0 <= k < |fs| :: fs[k].WellFormed() && fs[k].len <= TXMAXSIZE
  }

  /** The transfer that frame k was submitted with: its place is its position in the stream. */
  function TransferOf(fs: seq<Frame>, k: nat): Transfer
    requires k < |fs|
  {
    TxTransfer(fs[k], PtrOf(Pos(fs, k)), k % BDS)
  }

  function Pending(fs: seq<Frame>, k: nat): seq<Transfer>
    requires k <= |fs|
    decreases |fs| - k
  {
    if k == |fs| then [] else [TransferOf(fs, k)] + Pending(fs, k + 1)
  }

  /** Indices and start pointer follow the history; no more than the memory and at most 63 of the 64 descriptors
      are in use. */
  predicate Counters(s: Smap)
  {
    && s.released <= s.published <= |s.sent| < s.released + BDS
    && WellFormedFrames(s.sent)
    && s.indexStart == s.released % BDS
    && s.indexEnd == s.published % BDS
    && s.ptrStart == PtrOf(Pos(s.sent, s.released))
    && Pos(s.sent, |s.sent|) <= Pos(s.sent, s.released) + TXWORDS
  }

  predicate Allocated(s: Smap)
  {
    s.indexDma == |s.sent| % BDS && s.ptrEnd == PtrOf(Pos(s.sent, |s.sent|))
  }

  /** The descriptors between indexStart and indexEnd describe their frames; the others are clear. */
  predicate Described(s: Smap)
  {
    forall d: Index ::
      var k := Owner(s.released, d);
      if k < s.published && k < |s.sent| then
        s.bd[d].length == s.sent[k].len && s.bd[d].pointer == PtrOf(Pos(s.sent, k)) + TXBUFBASE
      else
        s.bd[d] == Bd(0, 0, 0)
  }

  /** Memory holds the published frames and the first m words after them; the write pointer is just behind. */
  predicate Copied(s: Smap, m: nat)
    requires s.released <= s.published <= |s.sent|
  {
    && Window(s.mem, Stream(s.sent), Pos(s.sent, s.released), Pos(s.sent, s.published) + m)
    && s.wrPtr == PtrOf(Pos(s.sent, s.published) + m)
  }

  function Ids(fs: seq<Frame>): seq<nat>
  {
    seq(|fs|, i requires 0 <= i < |fs| => fs[i].id)
  }

  /** The owners of exactly the published frames have been called back, once each and in order. */
  predicate Acked(s: Smap)
    requires s.published <= |s.sent|
  {
    s.acked == Ids(s.sent[..s.published])
  }

  /** The invariant while the completions rs are still to be called back, m words of the first being moved. */
  predicate Core(s: Smap, rs: seq<Transfer>, m: nat)
  {
    && Counters(s) && Described(s) && Acked(s) && Copied(s, m)
    && Share(rs + s.queue) == Pending(s.sent, s.published)
  }

  /** What the engine moves of the first of the transfers. */
  function Moved(rs: seq<Transfer>): nat
  {
    if rs != [] && rs[0].payload.Own? then BLOCKWORDS * Blocks(rs[0].size) else 0
  }

  /** What it has moved of the running transfer. */
  function Progress(s: Smap): nat
  {
    if s.queue != [] && s.queue[0].payload.Own? then s.moved else 0
  }

  /** The invariant between steps, but for what the next frame is allocated from. */
  predicate Running(s: Smap)
  {
    && Core(s, [], Progress(s))
    && Legal(s.queue)
    && Progress(s) <= Moved(s.queue)
  }

  predicate Inv(s: Smap)
  {
    Running(s) && Allocated(s)
  }

  // ---------- completions ----------

  lemma {:induction false} FrameSize(f: Frame)
    requires f.WellFormed() && f.len <= TXMAXSIZE
    ensures Aligned(f.len) == 4 * |f.words| && BLOCKWORDS * Blocks(Aligned(f.len)) <= |f.words|
  {
    BlocksExactBelow8M(Aligned(f.len));
  }

  /** The first of what is pending is the frame whose turn it is to be published. */
  lemma {:induction false} HeadIsNext(all: seq<Transfer>, fs: seq<Frame>, k: nat)
    requires k <= |fs| && Share(all) == Pending(fs, k) && all != [] && all[0].payload.Own?
    ensures k < |fs| && all[0] == TransferOf(fs, k) && Share(all[1..]) == Pending(fs, k + 1)
  {
    assert Share(all) == [all[0]] + Share(all[1..]);
    assert Pending(fs, k)[1..] == Share(all[1..]);
  }

  lemma {:induction false} SliceOfSlice(s: seq<Word>, a: nat, b: nat, m: nat, n: nat)
    requires a <= b <= |s| && m <= n <= b - a
    ensures s[a..b][m..n] == s[a + m..a + n]
  {
    assert |s[a..b][m..n]| == |s[a + m..a + n]|;
    assert forall i | 0 <= i < n - m :: s[a..b][m..n][i] == s[a + m..a + n][i];
  }

  /** Any part of frame k is where the stream says. */
  lemma {:induction false} PartOfFrame(fs: seq<Frame>, k: nat, m: nat, n: nat)
    requires k < |fs| && m <= n <= |fs[k].words|
    ensures Pos(fs, k) + n <= |Stream(fs)|
    ensures Stream(fs)[Pos(fs, k) + m..Pos(fs, k) + n] == fs[k].words[m..n]
  {
    FrameInStream(fs, k);
    SliceOfSlice(Stream(fs), Pos(fs, k), Pos(fs, k + 1), m, n);
  }

  /** Writing part of the frame that is next continues the copy. */
  lemma {:induction false} PartLands(s: Smap, m: nat, n: nat)
    requires Counters(s) && s.published < |s.sent| && Copied(s, m)
    requires m <= n <= |s.sent[s.published].words|
    ensures Copied(WriteWords(s, s.sent[s.published].words[m..n]), n)
  {
    hide PtrOf, Window, Poke, Stream, Pos;
    var k := s.published;
    var x := Pos(s.sent, k) + m;
    PartOfFrame(s.sent, k, m, n);
    PosMonotone(s.sent, k, |s.sent|);
    PokeExtends(s.mem, Stream(s.sent), Pos(s.sent, s.released), x, s.sent[k].words[m..n]);
    PtrFacts(x, n - m);
  }

  /** Writing the tail of a frame completes it in memory. */
  lemma {:induction false} TailLands(s: Smap, m: nat)
    requires Counters(s) && s.published < |s.sent|
    requires m == BLOCKWORDS * Blocks(Aligned(s.sent[s.published].len)) && Copied(s, m)
    ensures Copied(WriteWords(s, Tail(TransferOf(s.sent, s.published))).(published := s.published + 1), 0)
  {
    hide PtrOf, Window, Poke, Blocks, Stream;
    var words := s.sent[s.published].words;
    FrameSize(s.sent[s.published]);
    FrameInStream(s.sent, s.published);
    assert Tail(TransferOf(s.sent, s.published)) == words[m..|words|];
    PartLands(s, m, |words|);
  }

  lemma {:induction false} PublishDescribes(s: Smap, t: Smap)
    requires Counters(s) && Described(s) && Acked(s) && s.published < |s.sent|
    requires t == TxDone(s, TransferOf(s.sent, s.published).payload.job)
    ensures Counters(t) && Described(t) && Acked(t)
    ensures var f := s.sent[s.published];
            t.bd[s.indexEnd] == Bd(0x8000 + 0x200 + 0x100, f.len, 0x1000 + 4 * (Pos(s.sent, s.published) % TXWORDS))
  {
    PtrFacts(Pos(s.sent, s.published), 0);
    assert s.sent[..s.published + 1] == s.sent[..s.published] + [s.sent[s.published]];
    OwnerFacts(s.published, s.published, s.indexEnd);
    forall d: Index
      ensures var k := Owner(t.released, d);
              if k < t.published && k < |t.sent| then
                t.bd[d].length == t.sent[k].len && t.bd[d].pointer == PtrOf(Pos(t.sent, k)) + TXBUFBASE
              else
                t.bd[d] == Bd(0, 0, 0)
    {
      OwnerFacts(s.released, s.published, d);
    }
  }

  lemma {:induction false} CompleteKeeps(s: Smap, rs: seq<Transfer>)
    requires rs != [] && Core(s, rs, Moved(rs))
    ensures Core(Complete(s, rs[0]), rs[1..], 0)
  {
    hide PtrOf, Window, Poke, Blocks, Owner, Stream;
    assert (rs + s.queue)[1..] == rs[1..] + s.queue;
    if rs[0].payload.Own? {
      HeadIsNext(rs + s.queue, s.sent, s.published);
      TailLands(s, Moved(rs));
      PublishDescribes(WriteWords(s, Tail(rs[0])), Complete(s, rs[0]));
    }
  }

  /** Callbacks touch neither the queue nor what the driver allocates from. */
  predicate SameAllocation(s: Smap, t: Smap)
  {
    && t.queue == s.queue && t.sent == s.sent && t.released == s.released && t.linkValid == s.linkValid
    && t.indexDma == s.indexDma && t.ptrEnd == s.ptrEnd
  }

  lemma {:induction false} CompleteAllKeeps(s: Smap, rs: seq<Transfer>)
    requires Core(s, rs, Moved(rs)) && (rs != [] ==> Instant(rs[1..]))
    ensures Core(CompleteAll(s, rs), [], 0) && SameAllocation(s, CompleteAll(s, rs))
    decreases |rs|
  {
    if rs != [] {
      CompleteKeeps(s, rs);
      CompleteAllKeeps(Complete(s, rs[0]), rs[1..]);
    }
  }

  /** The pre-DMA callback of the transmitter finds the write pointer where it would put it. */
  lemma {:induction false} StartKeeps(s: Smap)
    requires Settled(s.queue) && Legal(s.queue) && Core(s, [], 0)
    ensures var t := if s.queue != [] then PreDma(s, s.queue[0]) else s; Running(t) && SameAllocation(s, t)
  {
    hide Core, PtrOf, Pos, Legal, Settled;
    CoreIgnoresMoved(s);
    if s.queue != [] && s.queue[0].payload.Own? { PointerInPlace(s); }
  }

  lemma {:induction false} PointerInPlace(s: Smap)
    requires Core(s, [], 0) && s.queue != [] && s.queue[0].payload.Own?
    ensures s.wrPtr == s.queue[0].payload.job.ptr
  {
    hide Stream, Window, Owner, Described, Share, Acked;
    assert [] + s.queue == s.queue;
    HeadIsNext(s.queue, s.sent, s.published);
  }

  lemma {:induction false} CoreIgnoresMoved(s: Smap)
    requires Core(s, [], 0)
    ensures Core(s.(moved := 0), [], 0)
  {
    hide PtrOf, Window, Stream, Pos, Owner, Share;
  }

  /** A step of the DMA queue that completes what the engine has moved and starts the next transfer. */
  lemma {:induction false} ApplyKeeps(s: Smap, o: Outcome<DmaShare.Payload<Job>>)
    requires Settled(o.queue) && Legal(o.queue) && (o.done != [] ==> Instant(o.done[1..]))
    requires Core(s.(queue := o.queue), o.done, Moved(o.done))
    ensures var t := Apply(s, o, true); Running(t) && SameAllocation(s.(queue := o.queue), t)
  {
    hide Core, Running, Legal, Settled;
    CompleteAllKeeps(s.(queue := o.queue), o.done);
    StartKeeps(CompleteAll(s.(queue := o.queue), o.done));
  }

  // ---------- the steps that involve the DMA queue ----------

  /** The engine raises its interrupt when it has moved every block. */
  predicate EngineDone(s: Smap)
  {
    Progress(s) == Moved(s.queue)
  }

  lemma {:induction false} DmaInterruptKeeps(s: Smap)
    requires Inv(s) && EngineDone(s)
    ensures Inv(DmaInterrupt(s)) && DmaInterrupt(s).sent == s.sent
  {
    hide PtrOf, Window, Poke, Stream, Pos, Owner, Blocks, Counters, Described, Pending, Legal, Foreign, Apply;
    if s.queue != [] {
      InterruptConserves(s.queue);
      CountersIgnoreQueue(s, Interrupt(s.queue).queue);
      InterruptIsForeign(s.queue);
      var o := Interrupt(s.queue);
      assert [] + s.queue == s.queue;
      assert Core(s.(queue := o.queue), o.done, Moved(o.done));
      ApplyKeeps(s, o);
    }
  }

  lemma {:induction false} EngineMoveKeeps(s: Smap)
    requires Inv(s) && CanMove(s)
    ensures Inv(EngineMove(s))
  {
    hide PtrOf, Window, Poke, Stream, Pos, Owner, Blocks, Foreign, Legal;
    assert [] + s.queue == s.queue;
    HeadIsNext(s.queue, s.sent, s.published);
    var words := s.sent[s.published].words;
    assert words[s.moved..s.moved + 1] == [words[s.moved]];
    PartLands(s, s.moved, s.moved + 1);
  }

  lemma {:induction false} CountersIgnoreQueue(s: Smap, q: Queue)
    ensures Counters(s.(queue := q)) == Counters(s) && Described(s.(queue := q)) == Described(s)
  {
  }

  /** A transfer joins a queue that is at work. */
  lemma {:induction false} EnqueueKeeps(s: Smap, r: Transfer)
    requires Counters(s) && Described(s) && Acked(s) && Copied(s, Progress(s)) && Progress(s) <= Moved(s.queue)
    requires 0 < |s.queue| < SLOTS - 1 && Legal(s.queue) && Legal([r])
    requires Share(s.queue) + Share([r]) == Pending(s.sent, s.published)
    ensures DmaTransfer(s, r) == s.(queue := s.queue + [r]) && Running(DmaTransfer(s, r))
  {
    hide PtrOf, Window, Poke, Stream, Pos, Owner, Blocks, Counters, Described, Pending, Share, Legal, Foreign, Settled;
    SubmitConserves(s.queue, r);
    CountersIgnoreQueue(s, s.queue + [r]);
    ShareAppend(s.queue, [r]);
    LegalAppend(s.queue, [r]);
    assert [] + (s.queue + [r]) == s.queue + [r];
  }

  /** A transfer finds the queue empty and starts, or completes at once. */
  lemma {:induction false} FirstTransferKeeps(s: Smap, r: Transfer)
    requires Counters(s) && Described(s) && Acked(s) && Copied(s, 0)
    requires s.queue == [] && Legal([r])
    requires Share([r]) == Pending(s.sent, s.published)
    ensures var t := DmaTransfer(s, r); Running(t) && SameAllocation(s.(queue := t.queue), t)
  {
    hide PtrOf, Window, Poke, Stream, Pos, Owner, Blocks, Counters, Described, Pending, Apply;
    var o := Submit(s.queue, r);
    SubmitConserves(s.queue, r);
    SubmitIsForeign(s.queue, r);
    assert Share(s.queue) + Share([r]) == Share([r]);
    CountersIgnoreQueue(s, o.queue);
    assert Core(s.(queue := o.queue), o.done, Moved(o.done));
    ApplyKeeps(s, o);
  }

  /** A call of dev9_dma_transfer that is accepted: r is the transmitter's next transfer, or another client's. */
  lemma {:induction false} DmaTransferKeeps(s: Smap, r: Transfer)
    requires Counters(s) && Described(s) && Acked(s) && Copied(s, Progress(s)) && Progress(s) <= Moved(s.queue)
    requires |s.queue| < SLOTS - 1 && Legal(s.queue) && Legal([r])
    requires Share(s.queue) + Share([r]) == Pending(s.sent, s.published)
    ensures var t := DmaTransfer(s, r); Running(t) && SameAllocation(s.(queue := t.queue), t)
  {
    hide Counters, Described, Copied, Running, Pending, Apply, Legal, Pos;
    if s.queue == [] {
      assert Share(s.queue) + Share([r]) == Share([r]);
      FirstTransferKeeps(s, r);
    } else {
      EnqueueKeeps(s, r);
    }
  }

  /** Other clients of the queue do not disturb the transmitter. */
  lemma {:induction false} ForeignTransferKeeps(s: Smap, r: Transfer)
    requires Inv(s) && Foreign([r])
    ensures Inv(DmaTransfer(s, r)) && DmaTransfer(s, r).sent == s.sent
  {
    hide PtrOf, Window, Poke, Stream, Pos, Owner, Blocks, Counters, Described, Share, Pending, Legal;
    if |s.queue| < SLOTS - 1 {
      hide DmaTransfer;
      ForeignIsLegal(r);
      assert [] + s.queue == s.queue;
      DmaTransferKeeps(s, r);
    } else {
      SubmitConserves(s.queue, r);
    }
  }

  lemma {:induction false} LinkKeeps(s: Smap, up: bool)
    requires Inv(s)
    ensures Inv(s.(linkValid := up))
  {
    hide PtrOf, Window, Stream, Pos, Owner, Blocks, Share, Pending, Legal;
  }

  // ---------- sending ----------

  /** The words of transmit memory in use. */
  function InUse(s: Smap): nat
    requires s.released <= |s.sent|
  {
    PosMonotone(s.sent, s.released, |s.sent|);
    Pos(s.sent, |s.sent|) - Pos(s.sent, s.released)
  }

  /** ComputeFreeSize is exactly the memory less what is in flight, unless that is the whole memory: then it reads as
      free. */
  lemma {:induction false} FreeSizeExactIff(s: Smap)
    requires Counters(s) && Allocated(s)
    ensures InUse(s) <= TXWORDS
    ensures FreeSize(s) == if InUse(s) < TXWORDS then TXBUFSIZE - 4 * InUse(s) else TXBUFSIZE
    ensures FreeSize(s) == TXBUFSIZE - 4 * InUse(s) <==> InUse(s) < TXWORDS
  {
    hide Stream, Owner, Window;
    PosMonotone(s.sent, s.released, |s.sent|);
    PtrDistance(Pos(s.sent, s.released), Pos(s.sent, |s.sent|));
  }

  lemma {:induction false} PtrDistance(x: nat, y: nat)
    requires x <= y <= x + TXWORDS
    ensures (if PtrOf(x) > PtrOf(y) then PtrOf(x) - PtrOf(y) else TXBUFSIZE - (PtrOf(y) - PtrOf(x)))
            == if y < x + TXWORDS then TXBUFSIZE - 4 * (y - x) else TXBUFSIZE
  {
    PtrFacts(x, 0);
    PtrFacts(y, 0);
    hide PtrOf;
    assert y / TXWORDS == x / TXWORDS || y / TXWORDS == x / TXWORDS + 1;
  }

  /** The frame fits into what is really free of the transmit memory. */
  predicate Fits(s: Smap, f: Frame)
  {
    s.released <= |s.sent| && Aligned(f.len) + 4 * InUse(s) <= TXBUFSIZE
  }

  /** What the driver does not check before it gives a frame away: that it fits, that a descriptor stays free, and that
      the DMA queue has room. */
  predicate SafeSend(s: Smap, f: Frame)
  {
    SendStatus(s, f) == Ok ==> Fits(s, f) && |s.sent| - s.released < BDS - 1 && |s.queue| < SLOTS - 1
  }

  lemma {:induction false} PendingAppend(fs: seq<Frame>, f: Frame, k: nat)
    requires k <= |fs|
    ensures Pending(fs + [f], k) == Pending(fs, k) + [TransferOf(fs + [f], |fs|)]
    decreases |fs| - k
  {
    hide Stream, PtrOf;
    AppendFrame(fs, f);
    if k == |fs| {
      assert Pending(fs + [f], k + 1) == [];
    } else {
      PendingAppend(fs, f, k + 1);
      assert TransferOf(fs + [f], k) == TransferOf(fs, k);
    }
  }

  lemma {:induction false} AllocationGrows(s: Smap, f: Frame)
    requires Inv(s) && f.WellFormed() && f.len <= TXMAXSIZE
    requires Fits(s, f) && |s.sent| - s.released < BDS - 1
    ensures var t := s.(sent := s.sent + [f]); Counters(t) && Described(t) && Acked(t) && Copied(t, Progress(s))
  {
    hide Blocks, Legal, Foreign, Share, Pending, Stream, Owner;
    FrameSize(f);
    AppendFrame(s.sent, f);
    assert (s.sent + [f])[..s.published] == s.sent[..s.published];
    PosMonotone(s.sent, s.published, |s.sent|);
    WindowStreamGrows(s.mem, Stream(s.sent), Stream(s.sent + [f]), Pos(s.sent, s.released),
                      Pos(s.sent, s.published) + Progress(s));
  }

  lemma {:induction false} RunningIgnoresAllocation(s: Smap, ptrEnd: Ptr, indexDma: Index)
    ensures Running(s.(ptrEnd := ptrEnd, indexDma := indexDma)) == Running(s)
  {
    hide Stream, Owner, Window, PtrOf, Pos, Legal, Share, Pending, Blocks;
  }

  /** The transfer that SMap_Send submits is the one that the invariant expects for the new frame. */
  lemma {:induction false} SendSubmits(s: Smap, f: Frame)
    requires Inv(s)
    ensures var r := TxTransfer(f, s.ptrEnd, s.indexDma);
            && Share(s.queue) + Share([r]) == Pending(s.sent + [f], s.published)
            && Legal([r])
  {
    hide Blocks, Foreign, Stream, Owner, Window, Described, PtrOf;
    var r := TxTransfer(f, s.ptrEnd, s.indexDma);
    PendingAppend(s.sent, f, s.published);
    assert [] + s.queue == s.queue;
    AppendFrame(s.sent, f);
    assert r == TransferOf(s.sent + [f], |s.sent|) && Share([r]) == [r];
  }

  lemma {:induction false} SendKeeps(s: Smap, f: Frame)
    requires Inv(s) && f.WellFormed() && SafeSend(s, f)
    ensures Inv(Send(s, f))
    ensures Send(s, f).sent == if SendStatus(s, f) == Ok then s.sent + [f] else s.sent
    ensures Send(s, f).released == s.released
  {
    hide Blocks, Foreign, Stream, Owner, Window, Described, DmaTransfer, Pending, Share, PtrOf, Pos, Legal;
    if SendStatus(s, f) == Ok {
      var t := s.(sent := s.sent + [f]);
      var r := TxTransfer(f, s.ptrEnd, s.indexDma);
      AllocationGrows(s, f);
      SendSubmits(s, f);
      DmaTransferKeeps(t, r);
      AllocationMoves(s, f, DmaTransfer(t, r));
    }
  }

  lemma {:induction false} AllocationMoves(s: Smap, f: Frame, t: Smap)
    requires Allocated(s) && f.WellFormed() && t.sent == s.sent + [f] && Running(t)
    requires t.ptrEnd == s.ptrEnd && t.indexDma == s.indexDma
    ensures Inv(t.(ptrEnd := (t.ptrEnd + Aligned(f.len)) % TXBUFSIZE, indexDma := Next(t.indexDma)))
  {
    hide Stream, Owner, Window, Described, Core, Legal, Settled, Moved;
    AppendFrame(s.sent, f);
    PtrFacts(Pos(s.sent, |s.sent|), |f.words|);
    OwnerFacts(|s.sent|, |s.sent|, s.indexDma);
    RunningIgnoresAllocation(t, (t.ptrEnd + Aligned(f.len)) % TXBUFSIZE, Next(t.indexDma));
  }

  // ---------- releasing ----------

  lemma {:induction false} ReleaseKeeps(s: Smap)
    requires Inv(s) && s.indexStart != s.indexEnd && !s.bd[s.indexStart].Ready()
    ensures s.released < s.published && Inv(Release(s))
  {
    hide Blocks, Legal, Foreign, Share, Pending, Stream, Window;
    var k := s.released;
    OwnerFacts(k, k, s.indexStart);
    FrameInStream(s.sent, k);
    PosMonotone(s.sent, k + 1, s.published);
    PosMonotone(s.sent, s.published, |s.sent|);
    FrameSize(s.sent[k]);
    PtrFacts(Pos(s.sent, k), |s.sent[k].words|);
    WindowShrinks(s.mem, Stream(s.sent), Pos(s.sent, k), Pos(s.sent, k + 1), Pos(s.sent, s.published) + Progress(s));
    ReleaseDescribes(s);
  }

  lemma {:induction false} ReleaseDescribes(s: Smap)
    requires Counters(s) && Described(s) && s.released < s.published
    ensures Described(Release(s))
  {
    hide Stream, Pos, PtrOf;
    var t := Release(s);
    forall d: Index
      ensures var k := Owner(t.released, d);
              if k < t.published && k < |t.sent| then
                t.bd[d].length == t.sent[k].len && t.bd[d].pointer == PtrOf(Pos(t.sent, k)) + TXBUFBASE
              else
                t.bd[d] == Bd(0, 0, 0)
    {
      OwnerFacts(s.released, s.released, d);
    }
  }

  lemma {:induction false} CountersHold(s: Smap)
    requires Inv(s)
    ensures Counters(s)
  {
    hide Counters, Described, Acked, Copied, Share, Pending, Legal, Moved;
  }

  /** HandleTXInt releases exactly the descriptors, from the oldest on, that the chip is done with, up to the
      first that it still has. Its report of disagreeing pointers is never made. */
  lemma {:induction false} ReleaseSentKeeps(s: Smap)
    requires Inv(s)
    ensures var t := ReleaseSent(s);
            && Inv(t) && t.sent == s.sent
            && s.released <= t.released <= t.published == s.published
            && (t.released < t.published ==> t.bd[t.indexStart].Ready())
            && forall k | s.released <= k < t.released :: !s.bd[k % BDS].Ready()
    decreases (s.indexEnd - s.indexStart) % BDS
  {
    hide Inv;
    if s.indexStart == s.indexEnd {
      StopsAtEnd(s);
    } else if s.bd[s.indexStart].Ready() {
      CountersHold(s);
    } else {
      ReleaseKeeps(s);
      ReleaseSentKeeps(Release(s));
      ReleaseSkips(s, ReleaseSent(s).released);
    }
  }

  lemma {:induction false} StopsAtEnd(s: Smap)
    requires Inv(s) && s.indexStart == s.indexEnd
    ensures s.released == s.published
  {
    hide Running, Allocated;
    CountersHold(s);
    SameIndex(s.released, s.published);
  }

  lemma {:induction false} ReleaseSkips(s: Smap, end: nat)
    requires Inv(s) && !s.bd[s.indexStart].Ready() && s.indexStart != s.indexEnd && s.released < end
    requires forall k | s.released + 1 <= k < end :: !Release(s).bd[k % BDS].Ready()
    ensures forall k | s.released <= k < end :: !s.bd[k % BDS].Ready()
  {
    hide Running, Allocated;
    CountersHold(s);
    hide Inv;
    forall k | s.released <= k < end
      ensures !s.bd[k % BDS].Ready()
    {
      if k != s.released { assert !Release(s).bd[k % BDS].Ready(); }
    }
  }

  lemma {:induction false} NoRepair(s: Smap)
    requires Inv(s)
    ensures !NeedsRepair(ReleaseSent(s)) && HandleTxInt(s) == ReleaseSent(s)
  {
    hide Blocks, Legal, Foreign, Share, Pending, Stream, Window, PtrOf, Pos, Owner, Described;
    ReleaseSentKeeps(s);
    var t := ReleaseSent(s);
    if t.indexStart == t.indexDma { SameIndex(t.released, |t.sent|); }
  }

  /** HandleTXInt returns 2 exactly if every frame ever given away has been released. */
  lemma {:induction false} ResultIsTwoIff(s: Smap, clean: bool)
    requires Inv(s)
    ensures TxIntResult(s, clean) == 2 <==> ReleaseSent(s).released == |s.sent|
    decreases (s.indexEnd - s.indexStart) % BDS
  {
    hide Running, Allocated, Pos, Owner, Window, PtrOf;
    CountersHold(s);
    if s.indexStart == s.indexEnd {
      AllPublished(s);
    } else if s.bd[s.indexStart].Ready() {
      CountersOrder(s);
    } else {
      ReleaseKeeps(s);
      ResultIsTwoIff(Release(s), clean && !s.bd[s.indexStart].Error());
    }
  }

  lemma {:induction false} CountersOrder(s: Smap)
    requires Counters(s) && s.indexStart != s.indexEnd
    ensures s.released < s.published <= |s.sent|
  {
  }

  lemma {:induction false} AllPublished(s: Smap)
    requires Inv(s) && s.indexStart == s.indexEnd
    ensures s.indexStart == s.indexDma <==> s.released == |s.sent|
  {
    hide Described, Acked, Copied, Share, Pending, Legal, Moved, Pos, PtrOf;
    if s.indexStart == s.indexDma { SameIndex(s.released, |s.sent|); }
  }

  /** A descriptor that the chip has not looked at yet counts as an error: the two control bits of a frame to be sent
      are error bits of the status. */
  lemma {:induction false} UntouchedCountsAsError(s: Smap, clean: bool)
    requires s.indexStart != s.indexEnd && s.bd[s.indexStart].ctrl == READY
    ensures TxIntResult(s, clean) == 0
  {
  }

  // ---------- the chip, and the beginning ----------

  lemma {:induction false} TransmitKeeps(s: Smap, d: Index, ctrl: U16)
    requires Inv(s) && s.bd[d].Ready()
    ensures Inv(Transmit(s, d, ctrl))
  {
    hide Blocks, Legal, Foreign, Share, Pending, Stream, Pos, Window, PtrOf, Owner;
  }

  lemma {:induction false} InitEstablishes(mem: Memory)
    ensures Inv(Init(mem))
  {
    forall d: Index
      ensures Init(mem).bd[d] == Bd(0, 0, 0)
    {
    }
  }

  // ---------- what the invariant means ----------

  /** The frame that a descriptor handed to the chip stands for is in transmit memory, whole. */
  predicate Holds(s: Smap, d: Index, f: Frame)
  {
    && s.bd[d].length == f.len && TXBUFBASE <= s.bd[d].pointer < TXBUFBASE + TXBUFSIZE
    && forall j | 0 <= j < |f.words| :: s.mem[((s.bd[d].pointer - TXBUFBASE) / 4 + j) % TXWORDS] == f.words[j]
  }

  lemma {:induction false} ReadyIsWhole(s: Smap, d: Index)
    requires Inv(s) && s.bd[d].Ready()
    ensures var k := Owner(s.released, d);
            s.released <= k < s.published <= |s.sent| && k % BDS == d && Holds(s, d, s.sent[k])
  {
    hide Blocks, Legal, Foreign, Share, Pending, Stream, Window, PtrOf;
    var k := Owner(s.released, d);
    OwnerFacts(s.released, k, d);
    FrameInStream(s.sent, k);
    PosMonotone(s.sent, s.released, k);
    PosMonotone(s.sent, k + 1, s.published);
    WindowHolds(s.mem, Stream(s.sent), Pos(s.sent, s.released), Pos(s.sent, s.published) + Progress(s),
                Pos(s.sent, k), s.sent[k].words);
  }

  /** The write pointer is at the place of the oldest transfer that is still queued, plus what the engine has
      moved of it, or at the end pointer if none is queued. The pre-DMA callback therefore never moves it, and
      a frame without a whole block, for which that callback is not made, lands where it should. */
  lemma {:induction false} WritePointer(s: Smap)
    requires Inv(s)
    ensures Share(s.queue) == [] ==> s.wrPtr == s.ptrEnd
    ensures Share(s.queue) != [] ==>
              Share(s.queue)[0].payload.Own?
                && s.wrPtr == (Share(s.queue)[0].payload.job.ptr + 4 * Progress(s)) % TXBUFSIZE
  {
    assert [] + s.queue == s.queue;
    if s.published < |s.sent| {
      PtrFacts(Pos(s.sent, s.published), Progress(s));
    } else if s.queue != [] && s.queue[0].payload.Own? {
      HeadIsNext(s.queue, s.sent, s.published);
    }
  }

  /** The transmitter's queued transfers are, in order, those of the frames that were given to the queue and are
      not published, with the ring indices from indexEnd up to indexDma. */
  predicate QueuedInOrder(s: Smap)
    requires s.published <= |s.sent|
  {
    var queued := Share(s.queue);
    && |queued| == |s.sent| - s.published
    && (s.indexEnd + |queued|) % BDS == s.indexDma
    && forall i | 0 <= i < |queued| ::
         && queued[i].payload.Own?
         && queued[i].payload.job.frame == s.sent[s.published + i]
         && queued[i].payload.job.index == (s.indexEnd + i) % BDS
  }

  lemma {:induction false} PendingAt(fs: seq<Frame>, k: nat, i: nat)
    requires k + i <= |fs|
    ensures |Pending(fs, k)| == |fs| - k
    ensures k + i < |fs| ==> Pending(fs, k)[i] == TransferOf(fs, k + i)
    decreases |fs| - k
  {
    hide PtrOf, Pos, TransferOf;
    if k < |fs| { PendingAt(fs, k + 1, if i > 0 then i - 1 else 0); }
  }

  lemma {:induction false} QueueFollowsRing(s: Smap)
    requires Inv(s)
    ensures QueuedInOrder(s)
  {
    hide Inv, Share, Pending, TransferOf;
    InvMatches(s);
    PendingAt(s.sent, s.published, 0);
    IndexShift(s.published, |s.sent| - s.published);
    forall i | 0 <= i < |Share(s.queue)|
      ensures var r := Share(s.queue)[i];
              r.payload.Own? && r.payload.job.frame == s.sent[s.published + i]
              && r.payload.job.index == (s.indexEnd + i) % BDS
    {
      PendingAt(s.sent, s.published, i);
      IndexShift(s.published, i);
      TransferMeans(s.sent, s.published + i);
    }
  }

  lemma {:induction false} InvMatches(s: Smap)
    requires Inv(s)
    ensures s.published <= |s.sent| && s.indexEnd == s.published % BDS && s.indexDma == |s.sent| % BDS
    ensures Share(s.queue) == Pending(s.sent, s.published)
  {
    hide PtrOf, Window, Stream, Pos, Owner, Blocks, Share, Pending, Legal, Described, Acked, Copied;
    assert [] + s.queue == s.queue;
  }

  lemma {:induction false} TransferMeans(fs: seq<Frame>, k: nat)
    requires k < |fs|
    ensures var r := TransferOf(fs, k); r.payload.Own? && r.payload.job.frame == fs[k] && r.payload.job.index == k % BDS
  {
    hide PtrOf, Pos;
  }

  lemma {:induction false} IndexShift(k: nat, i: nat)
    ensures (k % BDS + i) % BDS == (k + i) % BDS
  {
  }
}
