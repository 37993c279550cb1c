/** The request queue of main.c in front of the transmitter, and every run of the two.

    A run is any interleaving of frames submitted, words moved by the DMA engine, interrupts of the engine
    and of the chip, timer ticks, statuses written by the chip, and transfers of other clients. */
module TxPipeline {
  import opened DmaQueue
  import opened DmaShare
  import opened SmapBd
  import opened SmapTx
  import opened TxInvariant

  type Requests = q: seq<Frame> | |q| <= MAX_REQ_CNT

  /** failed, refused and dropped are the frames whose owner was called back with an error, those that found the
      request queue full, and those that waited when the EE asked for a reset. Frames are numbered as they are
      submitted. */
  datatype Pipe = Pipe(smap: Smap, reqs: Requests, timeoutCnt: nat, submitted: nat,
                       failed: seq<nat>, refused: seq<nat>, dropped: seq<nat>)

  function Start(mem: Memory): Pipe
  {
    Pipe(Init(mem), [], 0, 0, [], [], [])
  }

  // ---------- main.c ----------

  /** A frame that finds no request waiting. */
  function Direct(p: Pipe, f: Frame): Pipe
    requires p.reqs == []
  {
    match SendStatus(p.smap, f)
    case Ok => p.(smap := Send(p.smap, f))
    case Full => p.(reqs := [f], timeoutCnt := 0)
    case _ => p.(failed := p.failed + [f.id])
  }

  /** SMapLowLevelOutput. */
  function Output(p: Pipe, f: Frame): Pipe
  {
    var q := p.(submitted := p.submitted + 1);
    if p.reqs == [] then Direct(q, f)
    else if |p.reqs| < MAX_REQ_CNT then q.(reqs := p.reqs + [f])
    else q.(refused := p.refused + [f.id])
  }

  /** What SMapLowLevelOutput returns: a frame that waits counts as sent. */
  function OutputStatus(p: Pipe, f: Frame): Status
  {
    if p.reqs == [] then (if SendStatus(p.smap, f) == Full then Ok else SendStatus(p.smap, f))
    else if |p.reqs| < MAX_REQ_CNT then Ok
    else Full
  }

  /** The status tells what has become of the frame: Ok that it was given away or waits, Full that it was refused, and
      anything else that its owner was called back, for want of a link or for its length. */
  lemma {:induction false} StatusTells(p: Pipe, f: Frame)
    ensures var q, status := Output(p, f), OutputStatus(p, f);
            && (status == Ok <==> q.failed == p.failed && q.refused == p.refused)
            && (status == Ok ==> q.smap.sent + q.reqs == p.smap.sent + p.reqs + [f])
            && (status == Full <==> q.refused == p.refused + [f.id])
            && (status == Err || status == Con <==> q.failed == p.failed + [f.id])
            && (status == Con <==> p.reqs == [] && !p.smap.linkValid)
            && (status == Err <==> p.reqs == [] && p.smap.linkValid && f.len > 1514)
            && (status != Ok ==> q.smap == p.smap && q.reqs == p.reqs)
  {
    hide DmaTransfer;
    if p.reqs == [] && SendStatus(p.smap, f) == Ok {
      SendKeepsSent(p.smap, f);
    }
    assert |p.failed + [f.id]| == |p.failed| + 1 && |p.refused + [f.id]| == |p.refused| + 1;
  }

  lemma {:induction false} SendKeepsSent(s: Smap, f: Frame)
    requires SendStatus(s, f) == Ok
    ensures Send(s, f).sent == s.sent + [f]
  {
    var r := TxTransfer(f, s.ptrEnd, s.indexDma);
    SubmitConserves(s.queue, r);
    CompleteAllKeepsSent(s.(sent := s.sent + [f], queue := Submit(s.queue, r).queue), Submit(s.queue, r).done);
  }

  lemma {:induction false} CompleteAllKeepsSent(s: Smap, rs: seq<Transfer>)
    ensures CompleteAll(s, rs).sent == s.sent
    decreases |rs|
  {
    if rs != [] { CompleteAllKeepsSent(Complete(s, rs[0]), rs[1..]); }
  }

  /** One round of SendRequests: the first request is sent, or its owner gets an error. */
  function SendFirst(p: Pipe): Pipe
    requires p.reqs != []
  {
    var q := p.(reqs := p.reqs[1..]);
    if SendStatus(p.smap, p.reqs[0]) == Ok then q.(smap := Send(p.smap, p.reqs[0]))
    else q.(failed := p.failed + [p.reqs[0].id])
  }

  /** SendRequests: sends in order until the transmit memory is full. */
  function SendRequests(p: Pipe): Pipe
    decreases |p.reqs|
  {
    if p.reqs == [] then p
    else if SendStatus(p.smap, p.reqs[0]) == Full then p.(timeoutCnt := 0)
    else SendRequests(SendFirst(p))
  }

  function Ticked(p: Pipe): Pipe
  {
    p.(timeoutCnt := p.timeoutCnt + TIMER_INTERVAL)
  }

  /** Timer. */
  function Timer(p: Pipe): Pipe
  {
    if p.reqs == [] then p.(timeoutCnt := 0)
    else if Ticked(p).timeoutCnt >= TIMEOUT then SendRequests(Ticked(p)).(timeoutCnt := 0)
    else Ticked(p)
  }

  /** What smap_reset does to the request queue. */
  function Reset(p: Pipe): Pipe
  {
    p.(reqs := [], timeoutCnt := 0, dropped := p.dropped + Ids(p.reqs))
  }

  // ---------- runs ----------

  datatype Event =
    | Submission(frame: Frame)
    | EngineStep
    | DmaIrq
    | TxIrq
    | Tick
    | Cleared
    | ChipStatus(d: Index, ctrl: U16)
    | Foreigner(r: Transfer)
    | Link(up: bool)

  /** Every send of SendRequests is safe. */
  predicate SafeRequests(p: Pipe)
    decreases |p.reqs|
  {
    p.reqs != [] && SendStatus(p.smap, p.reqs[0]) != Full ==>
      SafeSend(p.smap, p.reqs[0]) && SafeRequests(SendFirst(p))
  }

  /** The event can happen, no send it causes is unsafe, and no reset frees a buffer that is being transferred. */
  predicate Enabled(p: Pipe, e: Event)
  {
    match e
    case Submission(f) => f.WellFormed() && f.id == p.submitted && (p.reqs == [] ==> SafeSend(p.smap, f))
    case EngineStep => CanMove(p.smap)
    case DmaIrq => EngineDone(p.smap)
    case TxIrq => SafeRequests(p.(smap := HandleTxInt(p.smap)))
    case Tick => p.reqs != [] && Ticked(p).timeoutCnt >= TIMEOUT ==> SafeRequests(Ticked(p))
    case Cleared => Share(p.smap.queue) == []
    case ChipStatus(d, _) => p.smap.bd[d].Ready()
    case Foreigner(r) => Foreign([r])
    case Link(_) => true
  }

  function Step(p: Pipe, e: Event): Pipe
    requires e.EngineStep? ==> CanMove(p.smap)
  {
    match e
    case Submission(f) => Output(p, f)
    case EngineStep => p.(smap := EngineMove(p.smap))
    case DmaIrq => p.(smap := DmaInterrupt(p.smap))
    case TxIrq => SendRequests(p.(smap := HandleTxInt(p.smap)))
    case Tick => Timer(p)
    case Cleared => Reset(p)
    case ChipStatus(d, ctrl) => p.(smap := Transmit(p.smap, d, ctrl))
    case Foreigner(r) => p.(smap := DmaTransfer(p.smap, r))
    case Link(up) => p.(smap := p.smap.(linkValid := up))
  }

  predicate Run(p: Pipe, events: seq<Event>, q: Pipe)
    decreases |events|
  {
    if events == [] then p == q else Enabled(p, events[0]) && Run(Step(p, events[0]), events[1..], q)
  }

  // ---------- the request queue ----------

  function Numbers(n: nat): seq<nat>
  {
    seq(n, i => i)
  }

  predicate Increasing(ids: seq<nat>)
  {
    forall i, j | 0 <= i < j < |ids| :: ids[i] < ids[j]
  }

  /** Where the numbers below n are. */
  datatype Lists = Lists(given: seq<nat>, waiting: seq<nat>, failed: seq<nat>, refused: seq<nat>, dropped: seq<nat>)

  /** Each of the numbers below n is in exactly one of the lists, once; those given and those waiting, one after the
      other, are in order. */
  predicate Partition(l: Lists, n: nat)
  {
    && multiset(l.given) + multiset(l.waiting) + multiset(l.failed) + multiset(l.refused) + multiset(l.dropped)
       == multiset(Numbers(n))
    && Increasing(l.given + l.waiting)
    && forall i | 0 <= i < |l.given + l.waiting| :: (l.given + l.waiting)[i] < n
  }

  lemma {:induction false} NextNumber(n: nat)
    ensures multiset(Numbers(n + 1)) == multiset(Numbers(n)) + multiset{n}
  {
    assert Numbers(n + 1) == Numbers(n) + [n];
  }

  lemma {:induction false} IncreasingAppend(ids: seq<nat>, n: nat)
    requires Increasing(ids) && forall i | 0 <= i < |ids| :: ids[i] < n
    ensures Increasing(ids + [n]) && forall i | 0 <= i < |ids + [n]| :: (ids + [n])[i] < n + 1
  {
  }

  /** A newcomer waits, or is given away when nobody waits. */
  lemma {:induction false} Admit(l: Lists, n: nat)
    requires Partition(l, n)
    ensures Partition(l.(waiting := l.waiting + [n]), n + 1)
    ensures l.waiting == [] ==> Partition(l.(given := l.given + [n]), n + 1)
  {
    NextNumber(n);
    IncreasingAppend(l.given + l.waiting, n);
    hide Increasing, Numbers;
    assert l.given + (l.waiting + [n]) == (l.given + l.waiting) + [n];
    if l.waiting == [] { assert l.given + [n] + l.waiting == l.given + l.waiting + [n]; }
  }

  /** A newcomer fails, or is refused. */
  lemma {:induction false} Discard(l: Lists, n: nat)
    requires Partition(l, n)
    ensures Partition(l.(failed := l.failed + [n]), n + 1)
    ensures Partition(l.(refused := l.refused + [n]), n + 1)
  {
    NextNumber(n);
    IncreasingAppend(l.given + l.waiting, n);
    hide Increasing, Numbers;
  }

  /** The first in the queue is given away or fails. */
  lemma {:induction false} Advance(l: Lists, n: nat)
    requires Partition(l, n) && l.waiting != []
    ensures Partition(l.(given := l.given + [l.waiting[0]], waiting := l.waiting[1..]), n)
    ensures Partition(l.(failed := l.failed + [l.waiting[0]], waiting := l.waiting[1..]), n)
  {
    var all := l.given + l.waiting;
    assert l.waiting == [l.waiting[0]] + l.waiting[1..];
    assert l.given + [l.waiting[0]] + l.waiting[1..] == all;
    InOrderWithout(l.given, l.waiting[0], l.waiting[1..], n);
    hide Increasing, Numbers;
  }

  lemma {:induction false} InOrderWithout(a: seq<nat>, x: nat, b: seq<nat>, n: nat)
    requires var all := a + [x] + b; Increasing(all) && forall i | 0 <= i < |all| :: all[i] < n
    ensures Increasing(a + b) && forall i | 0 <= i < |a + b| :: (a + b)[i] < n
  {
    var all, rest := a + [x] + b, a + b;
    assert forall i | 0 <= i < |rest| :: rest[i] == all[if i < |a| then i else i + 1];
  }

  /** Everybody who waits is dropped. */
  lemma {:induction false} Clear(l: Lists, n: nat)
    requires Partition(l, n)
    ensures Partition(l.(waiting := [], dropped := l.dropped + l.waiting), n)
  {
    assert l.given + [] == (l.given + l.waiting)[..|l.given|];
    hide Numbers;
  }

  function ListsOf(p: Pipe): Lists
  {
    Lists(Ids(p.smap.sent), Ids(p.reqs), p.failed, p.refused, p.dropped)
  }

  /** Every submitted frame is in exactly one place: given to the DMA queue, in the request queue, called back with an
      error, refused, or dropped by a reset. Those given and those waiting are in the order of submission. */
  predicate Accounted(p: Pipe)
  {
    Partition(ListsOf(p), p.submitted)
  }

  predicate PipeInv(p: Pipe)
  {
    && Inv(p.smap)
    && (forall i | 0 <= i < |p.reqs| :: p.reqs[i].WellFormed())
    && Accounted(p)
  }

  // ---------- every step keeps the invariant ----------

  lemma {:induction false} IdsAppend(fs: seq<Frame>, f: Frame)
    ensures Ids(fs + [f]) == Ids(fs) + [f.id]
    ensures fs != [] ==> Ids(fs)[0] == fs[0].id && Ids(fs)[1..] == Ids(fs[1..])
  {
  }

  lemma {:induction false} OutputKeeps(p: Pipe, f: Frame)
    requires PipeInv(p) && f.WellFormed() && f.id == p.submitted && (p.reqs == [] ==> SafeSend(p.smap, f))
    ensures PipeInv(Output(p, f))
  {
    hide Inv, Send, SendStatus, Partition;
    Admit(ListsOf(p), p.submitted);
    Discard(ListsOf(p), p.submitted);
    IdsAppend(p.smap.sent, f);
    IdsAppend(p.reqs, f);
    if p.reqs == [] {
      assert [] + [f] == [f];
      SendKeeps(p.smap, f);
    }
  }

  lemma {:induction false} SendFirstKeeps(p: Pipe)
    requires PipeInv(p) && p.reqs != [] && SafeSend(p.smap, p.reqs[0])
    ensures PipeInv(SendFirst(p))
  {
    hide Inv, Send, SendStatus, Partition;
    Advance(ListsOf(p), p.submitted);
    IdsAppend(p.smap.sent, p.reqs[0]);
    IdsAppend(p.reqs, p.reqs[0]);
    SendKeeps(p.smap, p.reqs[0]);
  }

  lemma {:induction false} SendRequestsKeeps(p: Pipe)
    requires PipeInv(p) && SafeRequests(p)
    ensures PipeInv(SendRequests(p))
    decreases |p.reqs|
  {
    hide Inv, Send, Partition, SendFirst, SafeSend;
    if p.reqs != [] && SendStatus(p.smap, p.reqs[0]) != Full {
      SendFirstKeeps(p);
      assert |SendFirst(p).reqs| < |p.reqs| by { FirstLeaves(p); }
      SendRequestsKeeps(SendFirst(p));
    }
  }

  lemma {:induction false} FirstLeaves(p: Pipe)
    requires p.reqs != []
    ensures SendFirst(p).reqs == p.reqs[1..]
  {
  }

  lemma {:induction false} TimerKeeps(p: Pipe)
    requires PipeInv(p) && Enabled(p, Tick)
    ensures PipeInv(Timer(p))
  {
    hide Inv, Partition, SendRequests, SafeRequests;
    if p.reqs != [] && Ticked(p).timeoutCnt >= TIMEOUT { SendRequestsKeeps(Ticked(p)); }
  }

  lemma {:induction false} ResetKeeps(p: Pipe)
    requires PipeInv(p)
    ensures PipeInv(Reset(p))
  {
    hide Inv, Partition;
    assert Ids([]) == [];
    Clear(ListsOf(p), p.submitted);
  }

  lemma {:induction false} TxIrqKeeps(p: Pipe)
    requires PipeInv(p) && Enabled(p, TxIrq)
    ensures PipeInv(Step(p, TxIrq))
  {
    hide Inv, Partition, SendRequests, SafeRequests, HandleTxInt;
    ReleaseSentKeeps(p.smap);
    NoRepair(p.smap);
    SendRequestsKeeps(p.(smap := HandleTxInt(p.smap)));
  }

  lemma {:induction false} StepKeeps(p: Pipe, e: Event)
    requires PipeInv(p) && Enabled(p, e)
    ensures PipeInv(Step(p, e))
  {
    hide Inv, Partition, SafeRequests, SendRequests, Send, DmaInterrupt, HandleTxInt, DmaTransfer, Timer, Reset;
    match e
    case Submission(f) => OutputKeeps(p, f);
    case EngineStep => EngineMoveKeeps(p.smap);
    case DmaIrq => DmaInterruptKeeps(p.smap);
    case TxIrq => TxIrqKeeps(p);
    case Tick => TimerKeeps(p);
    case Cleared => ResetKeeps(p);
    case ChipStatus(d, ctrl) => TransmitKeeps(p.smap, d, ctrl);
    case Foreigner(r) => ForeignTransferKeeps(p.smap, r);
    case Link(up) => LinkKeeps(p.smap, up);
  }

  lemma {:induction false} RunKeeps(p: Pipe, events: seq<Event>, q: Pipe)
    requires PipeInv(p) && Run(p, events, q)
    ensures PipeInv(q)
    decreases |events|
  {
    hide PipeInv, Step;
    if events != [] {
      StepKeeps(p, events[0]);
      RunKeeps(Step(p, events[0]), events[1..], q);
    }
  }

  lemma {:induction false} StartEstablishes(mem: Memory)
    ensures PipeInv(Start(mem))
  {
    hide Inv;
    InitEstablishes(mem);
    assert Numbers(0) == [];
  }

  // ---------- the timer ----------

  predicate Punctual(p: Pipe)
  {
    p.timeoutCnt % TIMER_INTERVAL == 0 && p.timeoutCnt < TIMEOUT
  }

  lemma {:induction false} StepPunctual(p: Pipe, e: Event)
    requires Punctual(p) && Enabled(p, e)
    ensures Punctual(Step(p, e))
  {
    hide Send, SendStatus, SafeRequests, HandleTxInt;
    match e
    case Submission(f) =>
    case TxIrq => SendRequestsTime(p.(smap := HandleTxInt(p.smap)));
    case _ =>
  }

  lemma {:induction false} SendRequestsTime(p: Pipe)
    ensures SendRequests(p).timeoutCnt == 0 || SendRequests(p).timeoutCnt == p.timeoutCnt
    decreases |p.reqs|
  {
    hide Send, SendStatus;
    if p.reqs != [] && SendStatus(p.smap, p.reqs[0]) != Full { SendRequestsTime(SendFirst(p)); }
  }

  lemma {:induction false} RunPunctual(p: Pipe, events: seq<Event>, q: Pipe)
    requires Punctual(p) && Run(p, events, q)
    ensures Punctual(q)
    decreases |events|
  {
    hide Punctual, Step;
    if events != [] {
      StepPunctual(p, events[0]);
      RunPunctual(Step(p, events[0]), events[1..], q);
    }
  }

  /** As long as a request waits, the timer tries again at least every third tick: it then either sends everything
      or finds the transmit memory full. */
  lemma {:induction false} TimerRetries(p: Pipe)
    requires Punctual(p) && p.reqs != []
    ensures var n := (TIMEOUT - p.timeoutCnt) / TIMER_INTERVAL;
            var q := Ticks(p, n);
            && 1 <= n <= 3 && (p.timeoutCnt == 0 ==> n == 3) && q.timeoutCnt == 0
            && (forall i | 0 <= i < n :: Ticks(p, i) == p.(timeoutCnt := p.timeoutCnt + 100_000 * i))
            && q.smap == SendRequests(p).smap && q.reqs == SendRequests(p).reqs
            && (q.reqs == [] || SendStatus(q.smap, q.reqs[0]) == Full)
  {
    hide SendStatus, SendFirst;
    var n := (TIMEOUT - p.timeoutCnt) / TIMER_INTERVAL;
    var late := p.(timeoutCnt := TIMEOUT - TIMER_INTERVAL);
    if n == 2 {
      assert Timer(p) == late;
    } else if n == 3 {
      assert Timer(Timer(p)) == late;
    }
    assert Ticks(p, n) == Timer(late);
    forall i | 0 <= i < n
      ensures Ticks(p, i) == p.(timeoutCnt := p.timeoutCnt + 100_000 * i)
    {
      assert Ticks(p, 0) == p && (n > 1 ==> Ticks(p, 1) == Timer(p)) && (n > 2 ==> Ticks(p, 2) == Timer(Timer(p)));
    }
    TimeoutIrrelevant(p, TIMEOUT);
    SendsUntilFull(p);
  }

  lemma {:induction false} WaitingRequestIsRetried(mem: Memory, events: seq<Event>, p: Pipe)
    requires Run(Start(mem), events, p) && p.reqs != []
    ensures exists n | 1 <= n <= 3 ::
              var q := Ticks(p, n);
              q.smap == SendRequests(p).smap && q.reqs == SendRequests(p).reqs
              && (q.reqs == [] || SendStatus(q.smap, q.reqs[0]) == Full)
  {
    RunPunctual(Start(mem), events, p);
    TimerRetries(p);
  }

  function Ticks(p: Pipe, n: nat): Pipe
    decreases n
  {
    if n == 0 then p else Ticks(Timer(p), n - 1)
  }

  lemma {:induction false} TimeoutIrrelevant(p: Pipe, t: nat)
    ensures SendRequests(p.(timeoutCnt := t))
            == SendRequests(p).(timeoutCnt := SendRequests(p.(timeoutCnt := t)).timeoutCnt)
    decreases |p.reqs|
  {
    hide Send, SendStatus;
    if p.reqs != [] && SendStatus(p.smap, p.reqs[0]) != Full {
      TimeoutIrrelevant(SendFirst(p), t);
    }
  }

  lemma {:induction false} SendsUntilFull(p: Pipe)
    ensures var q := SendRequests(p); q.reqs == [] || SendStatus(q.smap, q.reqs[0]) == Full
    decreases |p.reqs|
  {
    hide Send, SendStatus;
    if p.reqs != [] && SendStatus(p.smap, p.reqs[0]) != Full { SendsUntilFull(SendFirst(p)); }
  }

  // ---------- what every run guarantees ----------

  /** End-to-end integrity: whatever has happened since power-on, a descriptor that is ready for the chip stands
      for a frame given to the DMA queue and not yet released, in ring order, and transmit memory holds exactly
      that frame. In particular no later frame has been written over it. */
  lemma {:induction false} ReadyDescriptorsAreWhole(mem: Memory, events: seq<Event>, q: Pipe, d: Index)
    requires Run(Start(mem), events, q) && q.smap.bd[d].Ready()
    ensures exists k: nat ::
              && q.smap.released <= k < q.smap.published <= |q.smap.sent|
              && k % BDS == d
              && Holds(q.smap, d, q.smap.sent[k])
  {
    StartEstablishes(mem);
    RunKeeps(Start(mem), events, q);
    ReadyIsWhole(q.smap, d);
  }

  /** Exactly once and in order: the owners called back with success are those of the first frames given to the
      DMA queue, in that order; the frames given but not yet called back are in the DMA queue, in that order,
      with the ring indices from indexEnd on; and every other submitted frame is waiting behind them in order,
      or failed, or was refused, or was dropped by a reset. */
  lemma {:induction false} EveryFrameOnce(mem: Memory, events: seq<Event>, q: Pipe)
    requires Run(Start(mem), events, q)
    ensures q.smap.published <= |q.smap.sent|
    ensures Acked(q.smap)
    ensures QueuedInOrder(q.smap)
    ensures Accounted(q)
  {
    hide QueuedInOrder, Pending, Ids, Accounted;
    StartEstablishes(mem);
    RunKeeps(Start(mem), events, q);
    QueueFollowsRing(q.smap);
  }

  /** Byte conservation, and the write pointer of the chip: see FreeSizeExactIff and WritePointer. */
  lemma {:induction false} PointersAgree(mem: Memory, events: seq<Event>, q: Pipe)
    requires Run(Start(mem), events, q)
    ensures q.smap.released <= |q.smap.sent| && InUse(q.smap) <= TXWORDS
    ensures FreeSize(q.smap) == TXBUFSIZE - 4 * InUse(q.smap) <==> InUse(q.smap) < TXWORDS
    ensures InUse(q.smap) == TXWORDS ==> FreeSize(q.smap) == TXBUFSIZE
    ensures Share(q.smap.queue) == [] ==> q.smap.wrPtr == q.smap.ptrEnd
    ensures Share(q.smap.queue) != [] ==>
              var head := Share(q.smap.queue)[0].payload;
              head.Own? && q.smap.wrPtr == (head.job.ptr + 4 * Progress(q.smap)) % TXBUFSIZE
    ensures !NeedsRepair(ReleaseSent(q.smap))
  {
    hide Inv, FreeSize, Progress, Share, Counters, Allocated, NeedsRepair, ReleaseSent, HandleTxInt;
    InvReached(mem, events, q);
    InvMeans(q.smap);
    assert q.smap.released <= |q.smap.sent| by { CountersMeans(q.smap); }
    FreeSizeExactIff(q.smap);
    WritePointer(q.smap);
    NoRepair(q.smap);
    hide InUse;
  }

  lemma {:induction false} InvReached(mem: Memory, events: seq<Event>, q: Pipe)
    requires Run(Start(mem), events, q)
    ensures Inv(q.smap)
  {
    StartEstablishes(mem);
    RunKeeps(Start(mem), events, q);
    hide Inv, Accounted;
  }

  lemma {:induction false} CountersMeans(s: Smap)
    requires Counters(s)
    ensures s.released <= s.published <= |s.sent|
  {
  }

  lemma {:induction false} InvMeans(s: Smap)
    requires Inv(s)
    ensures Counters(s) && Allocated(s)
  {
    hide Counters, Described, Acked, Copied, Share, Pending, Legal, Moved;
  }
}
