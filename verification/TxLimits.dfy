/** What SMap_Send leaves unchecked: the three conditions of SafeSend are exactly what keeps the invariant, and
    what goes wrong without them. */
module TxLimits {
  import opened DmaQueue
  import opened DmaShare
  import opened SmapBd
  import opened SmapTx
  import opened TxRing
  import opened TxInvariant

  /** Callbacks leave everything alone that a send allocates from or a release frees. */
  predicate SameRing(s: Smap, t: Smap)
  {
    && t.ptrStart == s.ptrStart && t.ptrEnd == s.ptrEnd
    && t.indexStart == s.indexStart && t.indexDma == s.indexDma
    && t.sent == s.sent && t.released == s.released
  }

  lemma {:induction false} CompleteAllFrame(s: Smap, rs: seq<Transfer>)
    ensures SameRing(s, CompleteAll(s, rs)) && CompleteAll(s, rs).queue == s.queue
    decreases |rs|
  {
    if rs != [] { CompleteAllFrame(Complete(s, rs[0]), rs[1..]); }
  }

  lemma {:induction false} SendFrame(s: Smap, f: Frame)
    requires SendStatus(s, f) == Ok
    ensures var t := Send(s, f);
            && SameRing(s.(sent := s.sent + [f], ptrEnd := t.ptrEnd, indexDma := t.indexDma), t)
            && t.ptrEnd == (s.ptrEnd + Aligned(f.len)) % TXBUFSIZE
            && t.indexDma == Next(s.indexDma)
            && t.queue == Submit(s.queue, TxTransfer(f, s.ptrEnd, s.indexDma)).queue
  {
    var r := TxTransfer(f, s.ptrEnd, s.indexDma);
    SubmitConserves(s.queue, r);
    var o := Submit(s.queue, r);
    CompleteAllFrame(s.(sent := s.sent + [f], queue := o.queue), o.done);
  }

  lemma {:induction false} CompleteAllPublishes(s: Smap, rs: seq<Transfer>)
    ensures CompleteAll(s, rs).published == s.published + |Share(rs)|
    decreases |rs|
  {
    if rs != [] { CompleteAllPublishes(Complete(s, rs[0]), rs[1..]); }
  }

  /** A frame that was given away is published or queued, like all before it, exactly if the DMA queue had room. */
  lemma {:induction false} QueuedIff(s: Smap, f: Frame)
    requires Inv(s) && SendStatus(s, f) == Ok
    ensures var t := Send(s, f); t.published + |Share(t.queue)| == |t.sent| <==> |s.queue| < SLOTS - 1
  {
    var r := TxTransfer(f, s.ptrEnd, s.indexDma);
    SharesMatch(s);
    SubmitShares(s.queue, r);
    SendPublishes(s, f);
    SendFrame(s, f);
    hide Inv, SendStatus, Send, Share, Legal, Submit;
  }

  lemma {:induction false} SendPublishes(s: Smap, f: Frame)
    requires SendStatus(s, f) == Ok
    ensures Send(s, f).published == s.published + |Share(Submit(s.queue, TxTransfer(f, s.ptrEnd, s.indexDma)).done)|
  {
    var r := TxTransfer(f, s.ptrEnd, s.indexDma);
    SubmitConserves(s.queue, r);
    var o := Submit(s.queue, r);
    CompleteAllPublishes(s.(sent := s.sent + [f], queue := o.queue), o.done);
    hide Share, Submit, CompleteAll, SendStatus, Settled;
  }

  lemma {:induction false} SharesMatch(s: Smap)
    requires Inv(s)
    ensures s.published + |Share(s.queue)| == |s.sent| && Legal(s.queue)
  {
    hide PtrOf, Window, Stream, Pos, Owner, Blocks, Legal, Foreign, Described, Acked, Copied, Share, Pending;
    assert [] + s.queue == s.queue;
    PendingAt(s.sent, s.published, 0);
  }

  /** The free size stays exact exactly if the frame leaves some memory free. */
  lemma {:induction false} FreeStaysExactIff(s: Smap, f: Frame)
    requires Inv(s) && f.WellFormed() && SendStatus(s, f) == Ok
    ensures var t := Send(s, f);
            && s.released == t.released <= |t.sent|
            && (FreeSize(t) == TXBUFSIZE - 4 * InUse(t) <==> InUse(s) < TXWORDS && Aligned(f.len) < FreeSize(s))
  {
    hide Inv, Send, InUse, FreeSize, SendStatus;
    SendFrame(s, f);
    CountersHold(s);
    assert s.released <= |s.sent| && Allocated(s) by { InvBounds(s); }
    FreeSizeExactIff(s);
    InUseGrows(s, Send(s, f), f);
    StatusMeans(s, f);
    FreeShrinks(s, Send(s, f), Aligned(f.len));
  }

  lemma {:induction false} InvBounds(s: Smap)
    requires Inv(s)
    ensures s.released <= |s.sent| && Allocated(s)
  {
    hide Described, Acked, Copied, Share, Pending, Legal, Moved, Pos, PtrOf;
  }

  lemma {:induction false} StatusMeans(s: Smap, f: Frame)
    requires SendStatus(s, f) == Ok
    ensures s.linkValid && f.len <= TXMAXSIZE && Aligned(f.len) <= FreeSize(s)
  {
  }

  lemma {:induction false} InUseGrows(s: Smap, t: Smap, f: Frame)
    requires s.released == t.released <= |s.sent| && t.sent == s.sent + [f] && f.WellFormed()
    ensures 4 * InUse(t) == 4 * InUse(s) + Aligned(f.len)
  {
    AppendFrame(s.sent, f);
    hide Pos;
  }

  /** With its last descriptor taken the ring looks empty. */
  lemma {:induction false} LooksEmptyIff(s: Smap, f: Frame)
    requires Inv(s) && SendStatus(s, f) == Ok
    ensures var t := Send(s, f); t.indexDma == t.indexStart <==> |s.sent| - s.released == BDS - 1
  {
    hide Running, Pos, PtrOf, Window, Stream, Send;
    SendFrame(s, f);
    CountersHold(s);
    OwnerFacts(|s.sent|, |s.sent|, s.indexDma);
    if |s.sent| - s.released == BDS - 1 {
      IndexShift(s.released, BDS);
    } else if Send(s, f).indexDma == s.indexStart {
      SameIndex(s.released, |s.sent| + 1);
    }
  }

  /** A send keeps the whole invariant exactly if it does none of this: the frame fits, a descriptor stays free, and the
      DMA queue has room. */
  lemma {:induction false} SendIsSafeIff(s: Smap, f: Frame)
    requires Inv(s) && f.WellFormed() && SendStatus(s, f) == Ok
    ensures Inv(Send(s, f)) <==> SafeSend(s, f)
  {
    hide Inv, Send, InUse, FreeSize, SendStatus, Share;
    assert s.released <= |s.sent| by { InvBounds(s); }
    SendFrame(s, f);
    if SafeSend(s, f) {
      SendKeeps(s, f);
    } else if Inv(Send(s, f)) {
      var t := Send(s, f);
      SharesMatch(t);
      QueuedIff(s, f);
      CountersHold(t);
      InUseGrows(s, t, f);
      InvBounds(t);
      FreeSizeExactIff(t);
      CountersBound(t);
    }
  }

  lemma {:induction false} CountersBound(s: Smap)
    requires Counters(s)
    ensures |s.sent| < s.released + BDS
  {
  }

  /** With an exact fill the memory reads as empty, and the next frame goes on top of the oldest one. */
  lemma {:induction false} ExactFillReadsEmpty(s: Smap, f: Frame, next: Frame)
    requires Inv(s) && f.WellFormed() && SendStatus(s, f) == Ok && Fits(s, f) && Aligned(f.len) == FreeSize(s)
    ensures var t := Send(s, f);
            && FreeSize(t) == TXBUFSIZE && t.ptrEnd == s.ptrStart
            && (next.len <= TXMAXSIZE ==> SendStatus(t, next) == Ok || !t.linkValid)
            && TxTransfer(next, t.ptrEnd, t.indexDma).payload.job.ptr == s.ptrStart
  {
    hide Inv, Send, InUse, SendStatus;
    SendFrame(s, f);
    var t := Send(s, f);
    assert t.ptrEnd == s.ptrStart;
    FreshStatus(t, next);
  }

  lemma {:induction false} FreshStatus(t: Smap, next: Frame)
    requires FreeSize(t) == TXBUFSIZE
    ensures next.len <= TXMAXSIZE ==> SendStatus(t, next) == Ok || !t.linkValid
  {
  }

  /** A frame of less than a block that finds the DMA queue idle is in memory and published when SMap_Send returns. */
  lemma {:induction false} ShortSend(s: Smap, f: Frame)
    requires s.queue == [] && f.WellFormed() && 0 < f.len < 125 && SendStatus(s, f) == Ok
    ensures var t := TxDone(WriteWords(s.(sent := s.sent + [f]), f.words), Job(s.ptrEnd, s.indexDma, f));
            Send(s, f) == t.(ptrEnd := (s.ptrEnd + Aligned(f.len)) % TXBUFSIZE, indexDma := Next(s.indexDma))
  {
    hide SendStatus;
    var r := TxTransfer(f, s.ptrEnd, s.indexDma);
    BlocksExactBelow8M(r.size);
    SettleOne(r);
    assert Tail(r) == f.words;
    var q := s.(sent := s.sent + [f]);
    hide Blocks, Settle, Poke;
    assert [r][1..] == [];
    assert CompleteAll(q, [r]) == CompleteAll(Complete(q, r), []);
  }

  lemma {:induction false} FirstWordStays(s: Smap, f: Frame)
    requires s.wrPtr == PtrOf(Pos(s.sent, |s.sent|)) && 0 < |f.words| <= TXWORDS
    ensures WriteWords(s, f.words).mem[s.wrPtr / 4] == f.words[0]
  {
    hide Stream;
    var x, stream := Pos(s.sent, |s.sent|), Stream(s.sent + [f]);
    AppendFrame(s.sent, f);
    PosMonotone(s.sent, 0, |s.sent|);
    assert stream[x..x + |f.words|] == f.words;
    PokeExtends(s.mem, stream, x, x, f.words);
    PtrFacts(x, 0);
    hide Pos, PtrOf, Poke;
    assert stream[x] == f.words[0];
  }

  /** What a frame given away into a full memory does: with the oldest frame still at the chip, it is copied over
      that. */
  lemma {:induction false} FullMemoryIsOverwritten(s: Smap, f: Frame)
    requires Inv(s) && InUse(s) == TXWORDS && s.queue == [] && s.bd[s.indexStart].Ready()
    requires f.WellFormed() && 0 < f.len < 125 && SendStatus(s, f) == Ok
    requires s.sent[s.released].words != [] && f.words[0] != s.sent[s.released].words[0]
    ensures var t, d, oldest := Send(s, f), s.indexStart, s.sent[s.released];
            Holds(s, d, oldest) && t.bd[d] == s.bd[d] && !Holds(t, d, oldest)
  {
    hide SendStatus, InUse, FreeSize, Stream, Inv, Owner, Poke, Pos, PtrOf, Holds, Send;
    var d := s.indexStart;
    FullMeans(s);
    ReadyIsWhole(s, d);
    OwnerFacts(s.released, s.released, d);
    ShortSend(s, f);
    FirstWordStays(s, f);
    NoLongerHolds(Send(s, f), d, s.sent[s.released], s.ptrStart);
  }

  lemma {:induction false} NoLongerHolds(t: Smap, d: Index, f: Frame, ptr: Ptr)
    requires t.bd[d].pointer == ptr + TXBUFBASE && f.words != [] && t.mem[ptr / 4] != f.words[0]
    ensures !Holds(t, d, f)
  {
    assert ((t.bd[d].pointer - TXBUFBASE) / 4 + 0) % TXWORDS == ptr / 4;
  }

  /** In a full memory the oldest frame begins where the next one will go, and the write pointer is there. */
  lemma {:induction false} FullMeans(s: Smap)
    requires Inv(s) && InUse(s) == TXWORDS && s.queue == []
    ensures s.released < |s.sent| && s.indexStart == s.released % BDS
    ensures s.ptrEnd == s.ptrStart == s.wrPtr == PtrOf(Pos(s.sent, |s.sent|))
    ensures s.bd[s.indexStart].Ready() ==> s.bd[s.indexStart].pointer == s.ptrStart + TXBUFBASE
    ensures s.indexDma != s.indexStart
  {
    hide Pos, PtrOf, Stream, Window, Inv, Share, Owner, Progress;
    WritePointer(s);
    CountersHold(s);
    InvBounds(s);
    assert Share(s.queue) == [] by { NoShare(s.queue); }
    PtrFacts(Pos(s.sent, s.released), TXWORDS);
    PtrLap(Pos(s.sent, s.released));
    OwnerFacts(s.released, s.released, s.indexStart);
    if s.indexDma == s.indexStart { SameIndex(s.released, |s.sent|); }
    PointerMeans(s);
  }

  lemma {:induction false} NoShare(q: Queue)
    requires q == []
    ensures Share(q) == []
  {
  }

  lemma {:induction false} PtrLap(x: nat)
    ensures PtrOf(x + TXWORDS) == PtrOf(x)
  {
  }

  lemma {:induction false} PointerMeans(s: Smap)
    requires Inv(s)
    ensures s.bd[s.indexStart].Ready() ==> s.bd[s.indexStart].pointer == s.ptrStart + TXBUFBASE
  {
    hide Pos, PtrOf, Stream, Window, Share, Pending, Legal, Moved, Progress, Acked, Copied, Owner;
    OwnerFacts(s.released, s.released, s.indexStart);
  }

  lemma {:induction false} AlignedPositive(len: nat)
    ensures len > 0 ==> Aligned(len) > 0
  {
  }

  lemma {:induction false} RingGoesRound(s: Smap)
    requires Inv(s) && |s.sent| - s.released == BDS - 1
    ensures Next(s.indexDma) == s.indexStart
  {
    hide Running, Pos, PtrOf, Window, Stream;
    CountersHold(s);
    OwnerFacts(|s.sent|, |s.sent|, s.indexDma);
    IndexShift(s.released, BDS);
  }

  lemma {:induction false} FreeShrinks(s: Smap, t: Smap, n: nat)
    requires n <= FreeSize(s) && t.ptrStart == s.ptrStart && t.ptrEnd == (s.ptrEnd + n) % TXBUFSIZE
    ensures FreeSize(t) == if n < FreeSize(s) then FreeSize(s) - n else TXBUFSIZE
    ensures 0 < n < FreeSize(s) ==> t.ptrStart != t.ptrEnd
  {
  }

  /** With all 64 descriptors handed to the chip the ring reads as empty: the next interrupt releases none of
      them, "repairs" the start pointer and declares the whole memory free. */
  lemma {:induction false} LastDescriptorReadsEmpty(s: Smap, f: Frame)
    requires Inv(s) && f.WellFormed() && SendStatus(s, f) == Ok && Aligned(f.len) < FreeSize(s) && f.len > 0
    requires |s.sent| - s.released == BDS - 1
    requires Send(s, f).indexEnd == s.indexStart
    ensures var t := Send(s, f);
            && ReleaseSent(t) == t && NeedsRepair(t)
            && FreeSize(t) < TXBUFSIZE && FreeSize(HandleTxInt(t)) == TXBUFSIZE
  {
    hide Inv, SmapTx.FreeSize, Send, ReleaseSent, SmapTx.HandleTxInt, NeedsRepair, Aligned;
    SendFrame(s, f);
    var t := Send(s, f);
    RingGoesRound(s);
    assert Aligned(f.len) > 0 by { AlignedPositive(f.len); }
    FreeShrinks(s, t, Aligned(f.len));
    FullySent(t);
  }

  lemma {:induction false} FullySent(t: Smap)
    requires t.indexStart == t.indexEnd == t.indexDma && 0 < FreeSize(t) && t.ptrStart != t.ptrEnd
    ensures ReleaseSent(t) == t && NeedsRepair(t) && FreeSize(t) < TXBUFSIZE && FreeSize(HandleTxInt(t)) == TXBUFSIZE
  {
  }

  /** A descriptor is always left when every frame in flight has 65 bytes or more: 61 such frames fill the
      memory first. */
  lemma {:induction false} LongFramesLeaveDescriptors(s: Smap)
    requires Inv(s) && forall k | s.released <= k < |s.sent| :: s.sent[k].len >= 65
    ensures |s.sent| - s.released <= 60
  {
    LongFramesAddUp(s.sent, s.released, |s.sent|);
  }

  /** With such frames in flight only a full memory and a full DMA queue are left to go wrong. */
  lemma {:induction false} LongFramesAreSafeIff(s: Smap, f: Frame)
    requires Inv(s) && f.WellFormed() && SendStatus(s, f) == Ok
    requires forall k | s.released <= k < |s.sent| :: s.sent[k].len >= 65
    ensures Inv(Send(s, f)) <==> Fits(s, f) && |s.queue| < SLOTS - 1
  {
    LongFramesLeaveDescriptors(s);
    SendIsSafeIff(s, f);
    hide Inv, Send;
  }

  lemma {:induction false} LongFramesAddUp(fs: seq<Frame>, j: nat, k: nat)
    requires j <= k <= |fs| && WellFormedFrames(fs) && forall i | j <= i < k :: fs[i].len >= 65
    ensures Pos(fs, k) >= Pos(fs, j) + 17 * (k - j)
    decreases k
  {
    if j < k {
      LongFramesAddUp(fs, j, k - 1);
      FrameInStream(fs, k - 1);
    }
  }
}
