/** What the operations of the transmitter do, in bytes, descriptors and frames, without the functions that compute it;
    and that every frame given to the DMA queue can still reach the chip. */
module TxEffects {
  import opened DmaQueue
  import opened DmaShare
  import opened SmapBd
  import opened SmapTx
  import opened TxRing
  import opened TxInvariant
  import opened TxPipeline
  import TxLimits
  import TxFailures

  // ---------- SMap_Send ----------

  /** Which status SMap_Send returns: no link comes first, then the length, then the bytes that are really in use, of
      which a full memory has none to show. */
  lemma {:induction false} StatusIff(s: Smap, f: Frame)
    requires Inv(s)
    ensures s.released <= |s.sent|
    ensures SendStatus(s, f) == Con <==> !s.linkValid
    ensures SendStatus(s, f) == Err <==> s.linkValid && f.len > 1514
    ensures SendStatus(s, f) == Full <==>
              s.linkValid && f.len <= 1514 && InUse(s) < 1024 && (f.len + 3) / 4 > 1024 - InUse(s)
  {
    InvCounts(s);
    FreeSizeExactIff(s);
    hide FreeSize, InUse;
  }

  lemma {:induction false} InvCounts(s: Smap)
    requires Inv(s)
    ensures Counters(s) && Allocated(s) && s.released <= |s.sent|
  {
    hide Described, Acked, Copied, Share, Pending, Legal, Moved, Pos, PtrOf;
  }

  /** A frame that is accepted becomes the last transfer of the DMA queue: its words, in whole words, from its buffer to
      the end of the active range and for the descriptor after the last one given away. */
  lemma {:induction false} SendAsks(s: Smap, f: Frame)
    requires SendStatus(s, f) == Ok && |s.queue| < 31 && (s.queue != [] || f.len > 124)
    ensures Send(s, f).queue
            == s.queue + [Request(Own(Job(s.ptrEnd, s.indexDma, f)), f.addr, (f.len + 3) / 4 * 4, [])]
  {
    var r := TxTransfer(f, s.ptrEnd, s.indexDma);
    BlocksExactBelow8M(r.size);
    SubmitConserves(s.queue, r);
    var o := Submit(s.queue, r);
    assert o.queue == s.queue + [r] && o.done == [];
    hide Blocks, Settled, FreeSize;
  }

  // ---------- HandleTXInt ----------

  /** The interrupt does nothing but release; and if nothing is in flight then, by the indices, the memory is free. */
  lemma {:induction false} RepairsAtRest(s: Smap)
    ensures var t, u := HandleTxInt(s), ReleaseSent(s);
            && t.(ptrStart := u.ptrStart) == u
            && t.ptrStart == if t.indexStart == t.indexEnd == t.indexDma then t.ptrEnd else u.ptrStart
  {
    hide ReleaseSent;
  }

  /** One of the descriptors of the frames up to end has an error bit. */
  predicate ErrorIn(s: Smap, end: nat)
  {
    exists k | s.released <= k <= end && k < s.published :: s.bd[k % BDS].ctrl % 0x400 != 0
  }

  /** It returns 0 exactly if something is still in flight and one of the descriptors that it looked at, the one that
      stopped it included, has an error bit. */
  lemma {:induction false} ResultIsZeroIff(s: Smap, clean: bool)
    requires Inv(s)
    ensures var end := ReleaseSent(s).released;
            TxIntResult(s, clean) == 0 <==> end < |s.sent| && (!clean || ErrorIn(s, end))
    decreases (s.indexEnd - s.indexStart) % BDS
  {
    hide Inv, ErrorIn, Release;
    CountersHold(s);
    CountersBound(s);
    ReleaseLeaves(s);
    if s.indexStart == s.indexEnd {
      StopsAtEnd(s);
      AllPublished(s);
      NoneLookedAt(s);
    } else if s.bd[s.indexStart].Ready() {
      CountersOrder(s);
      OneLookedAt(s);
    } else {
      ReleaseKeeps(s);
      ReleaseSentKeeps(Release(s));
      Decreasing(s);
      SameSent(s);
      ResultIsZeroIff(Release(s), clean && !s.bd[s.indexStart].Error());
      LookedAt(s, ReleaseSent(s).released);
    }
  }

  lemma {:induction false} NoneLookedAt(s: Smap)
    requires s.released == s.published
    ensures !ErrorIn(s, s.released)
  {
  }

  lemma {:induction false} OneLookedAt(s: Smap)
    requires s.released < s.published && s.indexStart == s.released % BDS
    ensures ErrorIn(s, s.released) <==> s.bd[s.indexStart].Error()
  {
  }

  lemma {:induction false} LookedAt(s: Smap, end: nat)
    requires Inv(s) && s.released < s.published && s.released < end
    ensures ErrorIn(s, end) <==> s.bd[s.indexStart].Error() || ErrorIn(Release(s), end)
  {
    hide Inv, Release;
    CountersHold(s);
    CountersBound(s);
    ReleaseLeaves(s);
  }

  /** Releasing a descriptor leaves those of the other frames. */
  lemma {:induction false} ReleaseLeaves(s: Smap)
    requires s.indexStart == s.released % BDS
    ensures Release(s).released == s.released + 1 && Release(s).published == s.published
    ensures forall k | s.released < k < s.released + BDS :: Release(s).bd[k % BDS] == s.bd[k % BDS]
  {
    forall k | s.released < k < s.released + BDS
      ensures Release(s).bd[k % BDS] == s.bd[k % BDS]
    {
      OtherIndex(s.released, k);
    }
  }

  lemma {:induction false} OtherIndex(j: nat, k: nat)
    requires j < k < j + BDS
    ensures j % BDS != k % BDS
  {
  }

  lemma {:induction false} CountersBound(s: Smap)
    requires Counters(s)
    ensures s.published < s.released + BDS && s.indexStart == s.released % BDS
  {
  }

  /** In every reachable state a descriptor is that of a published frame that is not released yet, with its length and
      its place, or clear. */
  lemma {:induction false} DescriptorsAreClearOrUsed(mem: Memory, events: seq<Event>, q: Pipe, d: Index)
    requires Run(Start(mem), events, q)
    ensures var s := q.smap;
            || s.bd[d] == Bd(0, 0, 0)
            || exists k: nat ::
                 && s.released <= k < s.published <= |s.sent| && k % BDS == d
                 && s.bd[d].length == s.sent[k].len && s.bd[d].pointer == 0x1000 + 4 * (Pos(s.sent, k) % 1024)
  {
    hide Inv;
    InvReached(mem, events, q);
    InvDescribes(q.smap, d);
  }

  lemma {:induction false} InvDescribes(s: Smap, d: Index)
    requires Inv(s)
    ensures var k := Owner(s.released, d);
            && s.published <= |s.sent|
            && if s.released <= k < s.published then
                 k % BDS == d
                 && s.bd[d].length == s.sent[k].len && s.bd[d].pointer == 0x1000 + 4 * (Pos(s.sent, k) % 1024)
               else
                 s.bd[d] == Bd(0, 0, 0)
  {
    hide Acked, Copied, Share, Pending, Legal, Moved, Owner, PtrOf, Pos;
    OwnerFacts(s.released, s.released, d);
    var k := Owner(s.released, d);
    if k <= |s.sent| { PtrFacts(Pos(s.sent, k), 0); }
  }

  // ---------- a transfer, wherever the chip's write pointer is ----------

  /** n words moved by the engine. */
  function EngineMoves(s: Smap, n: nat): Smap
    decreases n
  {
    if n == 0 || !CanMove(s) then s else EngineMoves(EngineMove(s), n - 1)
  }

  lemma {:induction false} PokeLands(mem: Memory, ptr: Ptr, ws: seq<Word>)
    requires |ws| <= TXWORDS && ptr % 4 == 0
    ensures forall j | 0 <= j < |ws| :: Poke(mem, ptr, ws)[(ptr / 4 + j) % TXWORDS] == ws[j]
  {
    var x := ptr / 4;
    var stream := seq(x, _ => 0) + ws;
    PtrFacts(x, 0);
    assert Window(mem, stream, x, x);
    hide PtrOf, Window, Poke;
    PokeExtends(mem, stream, x, x, ws);
    WindowHolds(Poke(mem, ptr, ws), stream, x, x + |ws|, x, ws);
  }

  lemma {:induction false} PokeJoin(mem: Memory, ptr: Ptr, a: seq<Word>, b: seq<Word>)
    ensures Poke(mem, ptr, a + b) == Poke(Poke(mem, ptr, a), (ptr + 4 * |a|) % TXBUFSIZE, b)
    decreases |a|
  {
    if a == [] {
      assert a + b == b;
    } else {
      assert (a + b)[0] == a[0] && (a + b)[1..] == a[1..] + b;
      var mem1, ptr1 := mem[ptr / 4 := a[0]], (ptr + 4) % TXBUFSIZE;
      assert Poke(mem, ptr, a + b) == Poke(mem1, ptr1, a[1..] + b) && Poke(mem, ptr, a) == Poke(mem1, ptr1, a[1..]);
      hide Poke;
      PokeJoin(mem1, ptr1, a[1..], b);
      PointerSum(ptr, 4, 4 * |a[1..]|);
    }
  }

  lemma {:induction false} PointerSum(p: nat, a: nat, b: nat)
    ensures ((p + a) % TXBUFSIZE + b) % TXBUFSIZE == (p + (a + b)) % TXBUFSIZE
  {
  }

  predicate Transferring(s: Smap)
  {
    && s.queue != [] && s.queue[0].payload.Own?
    && s.queue[0].payload.job.frame.WellFormed() && s.queue[0].payload.job.frame.len <= TXMAXSIZE
    && s.queue[0].size == Aligned(s.queue[0].payload.job.frame.len)
  }

  /** The engine moves the next words of the frame to where the write pointer is. */
  lemma {:induction false} EngineWrites(s: Smap, n: nat)
    requires Transferring(s) && s.moved + n <= BLOCKWORDS * Blocks(s.queue[0].size)
    ensures var words := s.queue[0].payload.job.frame.words;
            && s.moved + n <= |words|
            && EngineMoves(s, n) == WriteWords(s, words[s.moved..s.moved + n]).(moved := s.moved + n)
    decreases n
  {
    hide Blocks, Poke, WriteWords;
    var words := s.queue[0].payload.job.frame.words;
    FrameSize(s.queue[0].payload.job.frame);
    if n > 0 {
      assert words[s.moved..s.moved + n][0] == words[s.moved];
      assert words[s.moved..s.moved + n][1..] == words[s.moved + 1..s.moved + n];
      EngineMoveIs(s);
      EngineWrites(EngineMove(s), n - 1);
      WriteFirst(s, words[s.moved..s.moved + n], s.moved + 1);
    } else {
      WriteNothing(s);
      assert words[s.moved..s.moved] == [];
    }
  }

  lemma {:induction false} EngineMoveIs(s: Smap)
    requires CanMove(s)
    ensures EngineMove(s) == WriteWords(s, [s.queue[0].payload.job.frame.words[s.moved]]).(moved := s.moved + 1)
    ensures EngineMove(s).queue == s.queue
  {
  }

  lemma {:induction false} WriteNothing(s: Smap)
    ensures WriteWords(s, []) == s
  {
  }

  lemma {:induction false} WriteFirst(s: Smap, ws: seq<Word>, m: nat)
    requires ws != []
    ensures WriteWords(WriteWords(s, [ws[0]]).(moved := m), ws[1..]) == WriteWords(s, ws).(moved := m)
  {
    hide Poke;
    assert ws == [ws[0]] + ws[1..];
    PokeJoin(s.mem, s.wrPtr, [ws[0]], ws[1..]);
    PointerSum(s.wrPtr, 4, 4 * |ws[1..]|);
  }

  /** Whatever has gone wrong before, a frame with a block lands where its descriptor is going to point. */
  lemma {:induction false} TransferLands(s: Smap)
    requires Transferring(s) && s.queue[0].payload.job.ptr % 4 == 0
    ensures var r := s.queue[0];
            var words, ptr := r.payload.job.frame.words, r.payload.job.ptr;
            var t := EngineMoves(PreDma(s, r), 32 * Blocks(r.size));
            EngineDone(t) && forall j | 0 <= j < |words| :: Complete(t, r).mem[(ptr / 4 + j) % 1024] == words[j]
  {
    hide Blocks, Poke;
    var r := s.queue[0];
    var n, words, ptr := BLOCKWORDS * Blocks(r.size), r.payload.job.frame.words, r.payload.job.ptr;
    FrameSize(r.payload.job.frame);
    EngineWrites(PreDma(s, r), n);
    assert words == words[..n] + words[n..] && words[0..n] == words[..n];
    PokeJoin(s.mem, ptr, words[..n], words[n..]);
    PokeLands(s.mem, ptr, words);
    TailIsRest(r);
  }

  /** A frame without a block is copied to wherever the write pointer is, because the pre-DMA callback is not made for
      it; its descriptor points at its place all the same. */
  lemma {:induction false} ShortTransferLands(s: Smap, r: Transfer)
    requires r.payload.Own? && r.payload.job.frame.WellFormed() && r.size == Aligned(r.payload.job.frame.len) < 128
    requires s.wrPtr % 4 == 0
    ensures var t, f := Complete(s, r), r.payload.job.frame;
            && (forall j | 0 <= j < |f.words| :: t.mem[(s.wrPtr / 4 + j) % 1024] == f.words[j])
            && t.bd[r.payload.job.index] == Bd(0x8300, f.len, 0x1000 + r.payload.job.ptr)
  {
    hide Poke, Complete, Aligned;
    var words := r.payload.job.frame.words;
    ShortComplete(s, r);
    ShortSize(r.payload.job.frame);
    PokeLands(s.mem, s.wrPtr, words);
  }

  lemma {:induction false} ShortSize(f: Frame)
    requires f.WellFormed() && Aligned(f.len) < 128
    ensures |f.words| < 32
  {
  }

  lemma {:induction false} ShortComplete(s: Smap, r: Transfer)
    requires r.payload.Own? && r.size < 128
    ensures var t, f := Complete(s, r), r.payload.job.frame;
            && t.mem == Poke(s.mem, s.wrPtr, f.words)
            && t.bd[r.payload.job.index] == Bd(0x8300, f.len, 0x1000 + r.payload.job.ptr)
  {
    hide Poke, Tail;
    NoBlocks(r);
  }

  lemma {:induction false} NoBlocks(r: Transfer)
    requires r.payload.Own? && r.size < 128
    ensures Tail(r) == r.payload.job.frame.words
  {
    BlocksExactBelow8M(r.size);
    assert Blocks(r.size) == 0;
    hide Blocks;
  }

  lemma {:induction false} TailIsRest(r: Transfer)
    requires r.payload.Own? && BLOCKWORDS * Blocks(r.size) <= |r.payload.job.frame.words|
    ensures Tail(r) == r.payload.job.frame.words[BLOCKWORDS * Blocks(r.size)..]
  {
  }

  // ---------- main.c ----------

  /** A frame is given away exactly if none waits and it is sent; it waits if others do, or the memory is too full for
      it; it fails without a link or if it is too long; and it is refused if 64 wait. The timer starts anew with the
      first that waits. */
  lemma {:induction false} OutputDecides(p: Pipe, f: Frame)
    ensures var q, st := Output(p, f), SendStatus(p.smap, f);
            && q.smap.sent == p.smap.sent + (if p.reqs == [] && st == Ok then [f] else [])
            && q.reqs == p.reqs + (if (p.reqs == [] && st == Full) || 0 < |p.reqs| < 64 then [f] else [])
            && q.failed == p.failed + (if p.reqs == [] && (st == Con || st == Err) then [f.id] else [])
            && q.refused == p.refused + (if |p.reqs| == 64 then [f.id] else [])
            && q.dropped == p.dropped && q.submitted == p.submitted + 1
            && q.timeoutCnt == if p.reqs == [] && st == Full then 0 else p.timeoutCnt
  {
    hide Send, SendStatus;
    if SendStatus(p.smap, f) == Ok { SendKeepsSent(p.smap, f); }
  }

  /** The frames that SMap_Send takes while there is a link. */
  function Sendable(fs: seq<Frame>): seq<Frame>
  {
    if fs == [] then [] else (if fs[0].len <= 1514 then [fs[0]] else []) + Sendable(fs[1..])
  }

  function TooLong(fs: seq<Frame>): seq<nat>
  {
    if fs == [] then [] else (if fs[0].len > 1514 then [fs[0].id] else []) + TooLong(fs[1..])
  }

  /** With a link, SendRequests gives away a part of the queue from its beginning, without the frames that are too long,
      which fail, and stops only at a frame for which the memory is too full. Without one, everything fails. */
  lemma {:induction false} SendRequestsDoes(p: Pipe)
    ensures var q := SendRequests(p);
            && |q.reqs| <= |p.reqs|
            && var k := |p.reqs| - |q.reqs|;
               && q.reqs == p.reqs[k..]
               && (if p.smap.linkValid then
                     && q.smap.sent == p.smap.sent + Sendable(p.reqs[..k])
                     && q.failed == p.failed + TooLong(p.reqs[..k])
                   else q.reqs == [] && q.smap == p.smap && q.failed == p.failed + Ids(p.reqs))
               && (q.reqs == [] || SendStatus(q.smap, q.reqs[0]) == Full)
               && q.timeoutCnt == (if q.reqs == [] then p.timeoutCnt else 0)
               && q.refused == p.refused && q.dropped == p.dropped && q.submitted == p.submitted
    decreases |p.reqs|
  {
    hide Send, SendStatus, Ids, TxPipeline.SendFirst;
    if p.reqs == [] {
      NoFrames(p);
    } else if SendStatus(p.smap, p.reqs[0]) == Full {
      NoFrames(p);
      FullMeansLink(p.smap, p.reqs[0]);
      assert p.reqs[..0] == [];
    } else {
      FirstDoes(p);
      var r := SendFirst(p);
      SendRequestsDoes(r);
      var k := |p.reqs| - |SendRequests(p).reqs|;
      assert p.reqs[k..] == r.reqs[k - 1..];
      FirstFrame(p.reqs, k);
      Appended(p.smap.sent, p.reqs, k);
      Failing(p.failed, p.reqs, k);
    }
  }

  lemma {:induction false} NoFrames(p: Pipe)
    ensures Sendable([]) == [] && TooLong([]) == [] && Ids([]) == []
    ensures p.smap.sent + [] == p.smap.sent && p.failed + [] == p.failed
  {
  }

  lemma {:induction false} FullMeansLink(s: Smap, f: Frame)
    requires SendStatus(s, f) == Full
    ensures s.linkValid
  {
  }

  /** One round. */
  lemma {:induction false} FirstDoes(p: Pipe)
    requires p.reqs != [] && SendStatus(p.smap, p.reqs[0]) != Full
    ensures var q, f := SendFirst(p), p.reqs[0];
            && q.reqs == p.reqs[1..] && q.smap.linkValid == p.smap.linkValid && q.timeoutCnt == p.timeoutCnt
            && q.refused == p.refused && q.dropped == p.dropped && q.submitted == p.submitted
            && (if p.smap.linkValid && f.len <= 1514 then
                  q.smap.sent == p.smap.sent + [f] && q.failed == p.failed
                else
                  q.smap == p.smap && q.failed == p.failed + [f.id])
  {
    hide Send, FreeSize;
    if SendStatus(p.smap, p.reqs[0]) == Ok {
      SendKeepsSent(p.smap, p.reqs[0]);
      SendKeepsLink(p.smap, p.reqs[0]);
    }
  }

  lemma {:induction false} SendKeepsLink(s: Smap, f: Frame)
    ensures Send(s, f).linkValid == s.linkValid
  {
    if SendStatus(s, f) == Ok {
      var r := TxTransfer(f, s.ptrEnd, s.indexDma);
      SubmitConserves(s.queue, r);
      CompleteAllKeepsLink(s.(sent := s.sent + [f], queue := Submit(s.queue, r).queue), Submit(s.queue, r).done);
    }
  }

  lemma {:induction false} CompleteAllKeepsLink(s: Smap, rs: seq<Transfer>)
    ensures CompleteAll(s, rs).linkValid == s.linkValid
    decreases |rs|
  {
    if rs != [] { CompleteAllKeepsLink(Complete(s, rs[0]), rs[1..]); }
  }

  lemma {:induction false} FirstFrame(fs: seq<Frame>, k: nat)
    requires 0 < k <= |fs|
    ensures fs[..k] == [fs[0]] + fs[1..][..k - 1] && fs[..k][1..] == fs[1..][..k - 1]
    ensures Ids(fs) == [fs[0].id] + Ids(fs[1..])
  {
  }

  lemma {:induction false} Appended(sent: seq<Frame>, fs: seq<Frame>, k: nat)
    requires 0 < k <= |fs| && fs[..k][1..] == fs[1..][..k - 1]
    ensures sent + Sendable(fs[..k])
            == (if fs[0].len <= 1514 then sent + [fs[0]] else sent) + Sendable(fs[1..][..k - 1])
  {
  }

  lemma {:induction false} Failing(failed: seq<nat>, fs: seq<Frame>, k: nat)
    requires 0 < k <= |fs| && fs[..k][1..] == fs[1..][..k - 1]
    ensures failed + TooLong(fs[..k])
            == (if fs[0].len > 1514 then failed + [fs[0].id] else failed) + TooLong(fs[1..][..k - 1])
    ensures failed + ([fs[0].id] + Ids(fs[1..])) == failed + [fs[0].id] + Ids(fs[1..])
  {
  }

  /** A transmit interrupt releases what the chip is done with, and then drains the request queue. */
  lemma {:induction false} TxInterruptDrains(p: Pipe)
    requires Inv(p.smap)
    ensures var q, end := Step(p, TxIrq), Step(p, TxIrq).smap.released;
            && (q.reqs == [] || SendStatus(q.smap, q.reqs[0]) == Full)
            && p.smap.released <= end <= p.smap.published
            && (forall k | p.smap.released <= k < end :: p.smap.bd[k % BDS].ctrl < 0x8000)
            && (end < p.smap.published ==> p.smap.bd[end % BDS].ctrl >= 0x8000)
  {
    var r := p.(smap := HandleTxInt(p.smap));
    hide Inv, HandleTxInt, ReleaseSent, SendRequests, SendStatus;
    ReleaseSentKeeps(p.smap);
    NoRepair(p.smap);
    SendRequestsDoes(r);
    SendRequestsKeepsReleased(r);
    StopsAtReady(p.smap);
  }

  lemma {:induction false} StopsAtReady(s: Smap)
    requires Inv(s)
    ensures var end := ReleaseSent(s).released; end < s.published ==> s.bd[end % BDS].ctrl >= 0x8000
  {
    hide Inv, ReleaseSent;
    CountersHold(s);
    CountersBound(s);
    ReleaseSentKeeps(s);
    var t := ReleaseSent(s);
    CountersHold(t);
    CountersBound(t);
    if t.released < s.published { ReleaseSentLeaves(s, t.released); }
  }

  lemma {:induction false} ReleaseSentLeaves(s: Smap, k: nat)
    requires Inv(s) && ReleaseSent(s).released <= k < s.released + BDS
    ensures ReleaseSent(s).bd[k % BDS] == s.bd[k % BDS]
    decreases (s.indexEnd - s.indexStart) % BDS
  {
    hide Inv, Release;
    if !(s.indexStart == s.indexEnd || s.bd[s.indexStart].Ready()) {
      CountersHold(s);
      CountersBound(s);
      ReleaseKeeps(s);
      ReleaseSentKeeps(Release(s));
      ReleaseLeaves(s);
      Decreasing(s);
      ReleaseSentLeaves(Release(s), k);
    }
  }

  lemma {:induction false} SameSent(s: Smap)
    ensures Release(s).sent == s.sent
  {
  }

  lemma {:induction false} Decreasing(s: Smap)
    requires s.indexStart != s.indexEnd
    ensures var t := Release(s); (t.indexEnd - t.indexStart) % BDS < (s.indexEnd - s.indexStart) % BDS
  {
  }

  lemma {:induction false} SendRequestsKeepsReleased(p: Pipe)
    ensures SendRequests(p).smap.released == p.smap.released
    decreases |p.reqs|
  {
    hide Send, SendStatus;
    if p.reqs != [] && SendStatus(p.smap, p.reqs[0]) != Full {
      if SendStatus(p.smap, p.reqs[0]) == Ok { TxLimits.SendFrame(p.smap, p.reqs[0]); }
      SendRequestsKeepsReleased(SendFirst(p));
    }
  }

  /** A frame that waits is given away by the first transmit interrupt that finds enough memory released. */
  lemma {:induction false} TxInterruptSends(p: Pipe)
    requires Inv(p.smap) && p.reqs != [] && p.smap.linkValid && p.reqs[0].len <= 1514
    requires var s := ReleaseSent(p.smap); s.released <= |s.sent| && (p.reqs[0].len + 3) / 4 + InUse(s) <= 1024
    ensures var q := Step(p, TxIrq);
            |q.smap.sent| > |p.smap.sent| && q.smap.sent[|p.smap.sent|] == p.reqs[0] && |q.reqs| < |p.reqs|
  {
    hide Inv, HandleTxInt, ReleaseSent, SendRequests, SendStatus, InUse, Counters;
    var s := ReleaseSent(p.smap);
    ReleaseSentKeeps(p.smap);
    ReleaseKeepsLink(p.smap);
    NoRepair(p.smap);
    StatusIff(s, p.reqs[0]);
    FirstIsSent(p.(smap := s));
  }

  lemma {:induction false} FirstIsSent(p: Pipe)
    requires p.reqs != [] && p.smap.linkValid && p.reqs[0].len <= 1514 && SendStatus(p.smap, p.reqs[0]) != Full
    ensures var q := SendRequests(p);
            |q.smap.sent| > |p.smap.sent| && q.smap.sent[|p.smap.sent|] == p.reqs[0] && |q.reqs| < |p.reqs|
  {
    hide SendRequests, SendStatus, Ids, TooLong;
    SendRequestsDoes(p);
    Unfinished(p);
    var k := |p.reqs| - |SendRequests(p).reqs|;
    FirstFrame(p.reqs, k);
    assert Sendable(p.reqs[..k])[0] == p.reqs[0];
  }

  lemma {:induction false} ReleaseKeepsLink(s: Smap)
    ensures ReleaseSent(s).linkValid == s.linkValid
    decreases (s.indexEnd - s.indexStart) % BDS
  {
    if !(s.indexStart == s.indexEnd || s.bd[s.indexStart].Ready()) { ReleaseKeepsLink(Release(s)); }
  }

  lemma {:induction false} Unfinished(p: Pipe)
    requires p.reqs != [] && SendStatus(p.smap, p.reqs[0]) != Full
    ensures |SendRequests(p).reqs| < |p.reqs|
  {
    hide Send, SendStatus, Ids;
    FirstLeaves(p);
    hide TxPipeline.SendFirst;
    SendRequestsDoes(SendFirst(p));
  }

  /** An idle timer stays at 0. */
  lemma {:induction false} IdleTimer(p: Pipe)
    requires p.reqs == []
    ensures Timer(p) == p.(timeoutCnt := 0)
  {
  }

  /** After a reset nobody waits, and those who did are never sent, whatever happens then. */
  lemma {:induction false} ResetDrops(p: Pipe, id: nat, events: seq<Event>, q: Pipe)
    requires PipeInv(p) && TxFailures.AnyRun(Reset(p), events, q)
    ensures var r := Reset(p);
            && r.reqs == [] && r.timeoutCnt == 0 && r.smap == p.smap && r.dropped == p.dropped + Ids(p.reqs)
            && r.failed == p.failed && r.refused == p.refused
    ensures id in Ids(p.reqs) ==> id !in q.smap.acked && id !in Ids(q.reqs) && id !in q.failed
  {
    if id in Ids(p.reqs) {
      WaitingIsNowhereElse(p, id);
      hide PipeInv, TxFailures.AnyRun;
      TxFailures.RunLost(Reset(p), events, q, id);
    }
  }

  lemma {:induction false} WaitingIsNowhereElse(p: Pipe, id: nat)
    requires PipeInv(p) && id in Ids(p.reqs)
    ensures id < p.submitted && TxFailures.Gone(p.smap, id) && id !in p.failed
  {
    var l, n := ListsOf(p), p.submitted;
    OnceBelow(n, id);
    assert multiset(l.waiting)[id] >= 1;
    assert multiset(l.given)[id] == 0 && multiset(l.failed)[id] == 0;
    TxFailures.QueuedAreGiven(p.smap, id);
  }

  lemma {:induction false} OnceBelow(n: nat, id: nat)
    ensures multiset(Numbers(n))[id] == if id < n then 1 else 0
  {
    if n > 0 {
      OnceBelow(n - 1, id);
      NextNumber(n - 1);
    }
  }
}
