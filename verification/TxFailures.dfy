/** What the unchecked sends lead to: runs from power-on after which a frame at the chip is overwritten, all descriptors
    are taken for none, and a frame is lost for good. */
module TxFailures {
  import opened DmaQueue
  import opened DmaShare
  import opened SmapBd
  import opened SmapTx
  import opened TxRing
  import opened TxInvariant
  import opened TxPipeline
  import opened TxLimits

  lemma {:induction false} RunSnoc(p: Pipe, events: seq<Event>, q: Pipe, e: Event)
    requires Run(p, events, q) && Enabled(q, e)
    ensures Run(p, events + [e], Step(q, e))
    decreases |events|
  {
    hide Step;
    if events == [] {
      assert [e][1..] == [];
    } else {
      RunSnoc(Step(p, events[0]), events[1..], q, e);
      assert (events + [e])[1..] == events[1..] + [e];
    }
  }

  // ---------- short frames ----------

  type Count = x: int | 1 <= x <= 31 witness 1

  /** A frame of k words, which is less than a DMA block. */
  function Short(id: nat, k: Count): Frame
    requires id <= BDS
  {
    Frame(id, 4, 4 * k, seq(k, _ => id))
  }

  function Shorts(ks: seq<Count>): seq<Frame>
    requires |ks| <= BDS
  {
    seq(|ks|, i requires 0 <= i < |ks| => Short(i, ks[i]))
  }

  function Sum(ks: seq<Count>): nat
  {
    if ks == [] then 0 else Sum(ks[..|ks| - 1]) + ks[|ks| - 1]
  }

  lemma {:induction false} ShortsSnoc(ks: seq<Count>, k: Count)
    requires |ks| < BDS
    ensures Shorts(ks + [k]) == Shorts(ks) + [Short(|ks|, k)] && Sum(ks + [k]) == Sum(ks) + k
  {
    assert (ks + [k])[..|ks|] == ks;
  }

  lemma {:induction false} StreamOfShorts(ks: seq<Count>)
    requires |ks| <= BDS
    ensures |Stream(Shorts(ks))| == Sum(ks)
    decreases |ks|
  {
    if ks != [] {
      var n := |ks| - 1;
      StreamOfShorts(ks[..n]);
      ShortsSnoc(ks[..n], ks[n]);
      assert ks == ks[..n] + [ks[n]];
      AppendFrame(Shorts(ks[..n]), Short(n, ks[n]));
    }
  }

  lemma {:induction false} SumOfEqual(n: nat, k: Count)
    ensures Sum(seq(n, _ => k)) == n * k
  {
    if n > 0 {
      SumOfEqual(n - 1, k);
      assert seq(n, _ => k)[..n - 1] == seq(n - 1, _ => k);
    }
  }

  /** All of the short frames have been sent, and none has been released. */
  predicate Sent(p: Pipe, ks: seq<Count>)
  {
    && p.smap.linkValid && p.reqs == [] && p.submitted == |ks| <= BDS
    && p.smap.sent == Shorts(ks) && p.smap.published == |ks| && p.smap.released == 0 && p.smap.queue == []
    && (ks != [] ==> p.smap.bd[0].Ready())
  }

  lemma {:induction false} SentInUse(p: Pipe, ks: seq<Count>)
    requires Sent(p, ks) && Inv(p.smap)
    ensures InUse(p.smap) == Sum(ks) <= TXWORDS
    ensures FreeSize(p.smap) == if Sum(ks) < TXWORDS then TXBUFSIZE - 4 * Sum(ks) else TXBUFSIZE
    ensures p.smap.indexStart == 0 && p.smap.indexEnd == p.smap.indexDma == |ks| % BDS
  {
    CountersHold(p.smap);
    InvBounds(p.smap);
    FreeSizeExactIff(p.smap);
    StreamOfShorts(ks);
    hide Inv, FreeSize, Shorts;
    assert p.smap.sent[..0] == [] && p.smap.sent[..|ks|] == p.smap.sent;
  }

  /** One more. */
  lemma {:induction false} SendShort(p: Pipe, ks: seq<Count>, k: Count)
    requires Sent(p, ks) && Inv(p.smap) && |ks| < BDS && (Sum(ks) + k <= TXWORDS || Sum(ks) == TXWORDS)
    ensures SendStatus(p.smap, Short(|ks|, k)) == Ok
    ensures Sent(Output(p, Short(|ks|, k)), ks + [k])
  {
    var f := Short(|ks|, k);
    SentInUse(p, ks);
    ShortsSnoc(ks, k);
    assert SendStatus(p.smap, f) == Ok;
    ShortSend(p.smap, f);
    hide Inv, Shorts, Send, SendStatus, Sum, Poke;
  }

  lemma {:induction false} SendingIsEnabled(p: Pipe, ks: seq<Count>, k: Count)
    requires Sent(p, ks) && Inv(p.smap) && |ks| < BDS - 1 && Sum(ks) + k <= TXWORDS
    ensures Enabled(p, Submission(Short(|ks|, k)))
  {
    SentInUse(p, ks);
    hide Inv, InUse, Shorts;
  }

  lemma {:induction false} LinkUp(mem: Memory)
    ensures Run(Start(mem), [Link(true)], Step(Start(mem), Link(true)))
  {
    RunSnoc(Start(mem), [], Start(mem), Link(true));
    assert [] + [Link(true)] == [Link(true)];
  }

  lemma {:induction false} ShortsRun(mem: Memory, ks: seq<Count>) returns (events: seq<Event>, p: Pipe)
    requires |ks| < BDS && Sum(ks) <= TXWORDS
    ensures Run(Start(mem), events, p) && Inv(p.smap) && Sent(p, ks)
    decreases |ks|
  {
    if ks == [] {
      LinkUp(mem);
      events, p := [Link(true)], Step(Start(mem), Link(true));
      hide Run, Inv;
    } else {
      var n := |ks| - 1;
      hide Inv, Run, Sent, Enabled, Output;
      var before, q := ShortsRun(mem, ks[..n]);
      var f := Short(n, ks[n]);
      SendShort(q, ks[..n], ks[n]);
      SendingIsEnabled(q, ks[..n], ks[n]);
      assert ks == ks[..n] + [ks[n]];
      RunSnoc(Start(mem), before, q, Submission(f));
      events, p := before + [Submission(f)], Step(q, Submission(f));
    }
    InvReached(mem, events, p);
  }

  /** 33 frames of 124 bytes and one of 4 fill the memory. The frame after them is accepted, and copied over the first,
      which is still marked ready for the chip. */
  lemma {:induction false} FrameIsOverwritten(mem: Memory) returns (events: seq<Event>, p: Pipe, f: Frame)
    ensures Run(Start(mem), events, p)
    ensures f.WellFormed() && f.id == p.submitted && p.reqs == []
    ensures var t, first := Step(p, Submission(f)), p.smap.sent;
            && first != [] && Holds(p.smap, 0, first[0])
            && t.smap.bd[0] == p.smap.bd[0] && t.smap.bd[0].Ready() && !Holds(t.smap, 0, first[0])
  {
    var ks: seq<Count> := seq(33, _ => 31);
    SumOfEqual(33, 31);
    ShortsSnoc(ks, 1);
    events, p := ShortsRun(mem, ks + [1]);
    f := Short(34, 1);
    SentInUse(p, ks + [1]);
    SendShort(p, ks + [1], 1);
    assert p.smap.sent[0] == Short(0, 31);
    FullMemoryIsOverwritten(p.smap, f);
  }

  /** After 63 frames of 4 bytes a 64th is accepted. The ring then looks empty: the next interrupt releases none of the
      64, and declares all of the memory free. */
  lemma {:induction false} DescriptorsRunOut(mem: Memory) returns (events: seq<Event>, p: Pipe, f: Frame)
    ensures Run(Start(mem), events, p)
    ensures f.WellFormed() && f.id == p.submitted && p.reqs == []
    ensures var t := Step(p, Submission(f)).smap;
            && t.published == t.released + BDS && ReleaseSent(t) == t
            && FreeSize(t) < TXBUFSIZE && FreeSize(HandleTxInt(t)) == TXBUFSIZE
  {
    var ks: seq<Count> := seq(63, _ => 1);
    SumOfEqual(63, 1);
    events, p := ShortsRun(mem, ks);
    f := Short(63, 1);
    SentInUse(p, ks);
    SendShort(p, ks, 1);
    ShortSend(p.smap, f);
    LastDescriptorReadsEmpty(p.smap, f);
    hide Inv, Run;
  }

  // ---------- lost frames ----------

  function IsFrame(id: nat): Job -> bool
  {
    (job: Job) => job.frame.id == id
  }

  /** The frame is neither queued nor called back. */
  predicate Gone(s: Smap, id: nat)
  {
    Legal(s.queue) && Without(s.queue, IsFrame(id)) && id !in s.acked
  }

  lemma {:induction false} CompleteAllGone(s: Smap, rs: seq<Transfer>, id: nat)
    requires Without(rs, IsFrame(id)) && id !in s.acked
    ensures var t := CompleteAll(s, rs); id !in t.acked && t.queue == s.queue
    decreases |rs|
  {
    if rs != [] { CompleteAllGone(Complete(s, rs[0]), rs[1..], id); }
  }

  lemma {:induction false} ApplyGone(s: Smap, o: Outcome<DmaShare.Payload<Job>>, started: bool, id: nat)
    requires Settled(o.queue) && Legal(o.queue) && id !in s.acked
    requires Without(o.done, IsFrame(id)) && Without(o.queue, IsFrame(id))
    ensures Gone(Apply(s, o, started), id)
  {
    hide Without, Legal, Settled;
    CompleteAllGone(s.(queue := o.queue), o.done, id);
  }

  lemma {:induction false} DmaTransferGone(s: Smap, r: Transfer, id: nat)
    requires Gone(s, id) && Legal([r]) && Without([r], IsFrame(id))
    ensures Gone(DmaTransfer(s, r), id)
  {
    hide Legal, Without, Apply;
    SubmitConserves(s.queue, r);
    SubmitWithout(s.queue, r, IsFrame(id));
    ApplyGone(s, Submit(s.queue, r), s.queue == [], id);
  }

  lemma {:induction false} DmaInterruptGone(s: Smap, id: nat)
    requires Gone(s, id)
    ensures Gone(DmaInterrupt(s), id)
  {
    hide Legal, Without, Apply;
    if s.queue != [] {
      InterruptConserves(s.queue);
      InterruptWithout(s.queue, IsFrame(id));
      ApplyGone(s, Interrupt(s.queue), true, id);
    }
  }

  lemma {:induction false} SendGone(s: Smap, f: Frame, id: nat)
    requires Gone(s, id) && f.id != id
    ensures Gone(Send(s, f), id)
  {
    hide DmaTransfer, SendStatus;
    if SendStatus(s, f) == Ok {
      DmaTransferGone(s.(sent := s.sent + [f]), TxTransfer(f, s.ptrEnd, s.indexDma), id);
    }
  }

  lemma {:induction false} ReleaseGone(s: Smap, id: nat)
    requires Gone(s, id)
    ensures Gone(ReleaseSent(s), id)
    decreases (s.indexEnd - s.indexStart) % BDS
  {
    hide Legal, Without;
    if !(s.indexStart == s.indexEnd || s.bd[s.indexStart].Ready()) { ReleaseGone(Release(s), id); }
  }

  /** The owner of the frame has heard nothing, and nobody has the frame. */
  predicate Lost(p: Pipe, id: nat)
  {
    id < p.submitted && Gone(p.smap, id) && id !in p.failed && id !in Ids(p.reqs)
  }

  lemma {:induction false} SendFirstLost(p: Pipe, id: nat)
    requires Lost(p, id) && p.reqs != []
    ensures Lost(SendFirst(p), id)
  {
    hide Gone, Send, SendStatus;
    IdsAppend(p.reqs, p.reqs[0]);
    SendGone(p.smap, p.reqs[0], id);
  }

  lemma {:induction false} SendRequestsLost(p: Pipe, id: nat)
    requires Lost(p, id)
    ensures Lost(SendRequests(p), id)
    decreases |p.reqs|
  {
    hide Gone, Send, SendStatus;
    if p.reqs != [] && SendStatus(p.smap, p.reqs[0]) != Full {
      SendFirstLost(p, id);
      SendRequestsLost(SendFirst(p), id);
    }
  }

  lemma {:induction false} OutputLost(p: Pipe, f: Frame, id: nat)
    requires Lost(p, id) && f.id == p.submitted
    ensures Lost(Output(p, f), id)
  {
    hide Gone, Send, SendStatus;
    SendGone(p.smap, f, id);
    IdsAppend(p.reqs, f);
    assert [] + [f] == [f];
    assert Ids([]) == [];
    IdsAppend([], f);
  }

  /** What can happen at all, safe or not. */
  predicate Possible(p: Pipe, e: Event)
  {
    match e
    case Submission(f) => f.id == p.submitted
    case EngineStep => CanMove(p.smap)
    case Foreigner(r) => Foreign([r])
    case _ => true
  }

  predicate AnyRun(p: Pipe, events: seq<Event>, q: Pipe)
    decreases |events|
  {
    if events == [] then p == q else Possible(p, events[0]) && AnyRun(Step(p, events[0]), events[1..], q)
  }

  lemma {:induction false} StepLost(p: Pipe, e: Event, id: nat)
    requires Lost(p, id) && Possible(p, e)
    ensures Lost(Step(p, e), id)
  {
    match e {
      case Submission(f) => OutputLost(p, f, id);
      case DmaIrq => DmaInterruptGone(p.smap, id);
      case TxIrq =>
        ReleaseGone(p.smap, id);
        SendRequestsLost(p.(smap := HandleTxInt(p.smap)), id);
      case Tick =>
        SendRequestsLost(Ticked(p), id);
      case Foreigner(r) =>
        ForeignIsLegal(r);
        DmaTransferGone(p.smap, r, id);
      case _ =>
    }
    hide Legal, Without, Send, SendStatus, SendRequests, DmaTransfer, DmaInterrupt, ReleaseSent, Output, Foreign;
  }

  lemma {:induction false} RunLost(p: Pipe, events: seq<Event>, q: Pipe, id: nat)
    requires Lost(p, id) && AnyRun(p, events, q)
    ensures Lost(q, id)
    decreases |events|
  {
    hide Lost, Step;
    if events != [] {
      StepLost(p, events[0], id);
      RunLost(Step(p, events[0]), events[1..], q, id);
    }
  }

  /** A frame is not known before it is submitted. */
  lemma {:induction false} NumberIsNew(p: Pipe)
    requires PipeInv(p)
    ensures var n := p.submitted; Gone(p.smap, n) && n !in p.failed && n !in Ids(p.reqs)
  {
    var n, l := p.submitted, ListsOf(p);
    assert n !in Numbers(n);
    assert multiset(Numbers(n))[n] == 0;
    assert n !in l.given && n !in l.waiting && n !in l.failed;
    QueuedAreGiven(p.smap, n);
  }

  lemma {:induction false} QueuedAreGiven(s: Smap, id: nat)
    requires Inv(s) && id !in Ids(s.sent)
    ensures Gone(s, id)
  {
    QueueFollowsRing(s);
    SharesMatch(s);
    WithoutInShare(s.queue, IsFrame(id));
    assert Acked(s) by { InvAcked(s); }
    hide Inv, Legal, Share;
    assert forall k | 0 <= k < |s.sent| :: Ids(s.sent)[k] == s.sent[k].id;
    assert forall i | 0 <= i < |s.acked| :: s.acked[i] == Ids(s.sent)[i];
  }

  lemma {:induction false} InvAcked(s: Smap)
    requires Inv(s)
    ensures s.published <= |s.sent| && Acked(s)
  {
    hide Described, Copied, Share, Pending, Legal, Moved, Pos, PtrOf, Ids;
  }

  /** A frame that is given to a full DMA queue is lost: whatever happens afterwards, it is never sent, and its owner is
      never called back. */
  lemma {:induction false} FullQueueLoses(p: Pipe, f: Frame, events: seq<Event>, q: Pipe)
    requires PipeInv(p) && p.reqs == [] && f.id == p.submitted
    requires SendStatus(p.smap, f) == Ok && |p.smap.queue| == SLOTS - 1
    requires AnyRun(Output(p, f), events, q)
    ensures f.id !in q.smap.acked && f.id !in q.failed && f.id !in Ids(q.reqs) && Without(q.smap.queue, IsFrame(f.id))
  {
    NumberIsNew(p);
    RefusedSend(p.smap, f);
    hide PipeInv, Send, SendStatus, AnyRun;
    RunLost(Output(p, f), events, q, f.id);
  }

  lemma {:induction false} RefusedSend(s: Smap, f: Frame)
    requires |s.queue| == SLOTS - 1 && SendStatus(s, f) == Ok
    ensures Send(s, f).queue == s.queue && Send(s, f).acked == s.acked
  {
    SubmitConserves(s.queue, TxTransfer(f, s.ptrEnd, s.indexDma));
  }

  /** The other clients can fill the queue. */
  lemma {:induction false} FullQueueRun(mem: Memory, n: nat) returns (events: seq<Event>, p: Pipe)
    requires n < SLOTS
    ensures Run(Start(mem), events, p) && PipeInv(p)
    ensures p.smap.linkValid && p.reqs == [] && |p.smap.queue| == n && FreeSize(p.smap) == TXBUFSIZE
  {
    var r := Request(Other, 4, 128, []);
    if n == 0 {
      LinkUp(mem);
      events, p := [Link(true)], Step(Start(mem), Link(true));
    } else {
      var before, q := FullQueueRun(mem, n - 1);
      SubmitForeign(q.smap, r);
      RunSnoc(Start(mem), before, q, Foreigner(r));
      events, p := before + [Foreigner(r)], Step(q, Foreigner(r));
    }
    StartEstablishes(mem);
    RunKeeps(Start(mem), events, p);
  }

  lemma {:induction false} SubmitForeign(s: Smap, r: Transfer)
    requires |s.queue| < SLOTS - 1 && r == Request(Other, 4, 128, [])
    ensures Foreign([r]) && DmaTransfer(s, r).queue == s.queue + [r]
    ensures FreeSize(DmaTransfer(s, r)) == FreeSize(s) && DmaTransfer(s, r).linkValid == s.linkValid
  {
    assert Blocks(128) == 1;
    assert [] + [r] == [r];
    assert Submit(s.queue, r).done == [];
  }
}
