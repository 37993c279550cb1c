/** The driver of dev9_dma.c: a ring of 32 transfers, two indices and one engine.

    Completing a transfer and starting the next call each other, because a transfer without a full block
    completes without waiting for the engine, and the done callback may submit again before the transfer
    has left the ring. */
module Dev9Dma {
  import opened DmaQueue
  import opened Sequences

  /** struct dev9_dma_transfer. The request stands for the client and the callback argument. */
  datatype Slot<T> = Slot(maddr: U32, bcr: U32, req: Request<T>)

  datatype Engine = Idle | Running(madr: U32, bcr: U32)

  datatype Callback<T> = PreDma(r: Request<T>) | PostDma(r: Request<T>) | Done(r: Request<T>)

  function Next(i: nat): nat
  {
    if i + 1 == SLOTS then 0 else i + 1
  }

  function Advance(i: nat, n: nat): nat
    decreases n
  {
    if n == 0 then i else Advance(Next(i), n - 1)
  }

  /** How far slot s lies after slot i, going round. */
  function Dist(i: nat, s: nat): nat
    requires i < SLOTS && s < SLOTS
  {
    if i <= s then s - i else s - i + SLOTS
  }

  /** The callbacks that completing the given requests makes. */
  function Completions<T>(done: seq<Request<T>>): seq<Callback<T>>
  {
    if done == [] then [] else [PostDma(done[0]), Done(done[0])] + Completions(done[1..])
  }

  /** The callbacks of a step that ends by looking at the head of the queue. */
  function Trace<T>(o: Outcome<T>): seq<Callback<T>>
  {
    Completions(o.done) + if o.queue == [] then [] else [PreDma(o.queue[0])]
  }

  /** Transfer k of those that a step completes has its post-DMA callback before its done callback, with none of another
      transfer in between, and the pre-DMA callback of the new head comes last. */
  lemma {:induction false} TraceOrder<T>(o: Outcome<T>, k: nat)
    requires k < |o.done|
    ensures |Trace(o)| == 2 * |o.done| + if o.queue == [] then 0 else 1
    ensures Trace(o)[2 * k] == PostDma(o.done[k]) && Trace(o)[2 * k + 1] == Done(o.done[k])
    ensures o.queue != [] ==> Trace(o)[2 * |o.done|] == PreDma(o.queue[0])
  {
    CompletionsOrder(o.done, k);
  }

  lemma {:induction false} CompletionsOrder<T>(done: seq<Request<T>>, k: nat)
    requires k < |done|
    ensures |Completions(done)| == 2 * |done|
    ensures Completions(done)[2 * k] == PostDma(done[k]) && Completions(done)[2 * k + 1] == Done(done[k])
  {
    if |done| > 1 { CompletionsOrder(done[1..], if k == 0 then 0 else k - 1); }
  }

  /** What the step leaves in maddr of the slot at distance d from the head, out of the transfers that were
      queued or accepted: the completed ones are cleared, the rest keep their address. */
  function Maddr<T>(before: U32, d: nat, completed: nat, all: seq<Request<T>>): U32
  {
    if d < completed then 0 else if d < |all| then all[d].addr else before
  }

  predicate Swept<T>(before: seq<Slot<T>>, after: seq<Slot<T>>, i: nat, completed: nat, all: seq<Request<T>>)
    requires |before| == |after| == SLOTS && i < SLOTS
  {
    forall s | 0 <= s < SLOTS :: after[s].maddr == Maddr(before[s].maddr, Dist(i, s), completed, all)
  }

  lemma {:induction false} SweptAfterFill<T>(before: seq<Slot<T>>, mid: seq<Slot<T>>, after: seq<Slot<T>>,
                                             i: nat, completed: nat, all: seq<Request<T>>, more: seq<Request<T>>)
    requires |before| == |mid| == |after| == SLOTS && i < SLOTS
    requires Swept(before, mid, i, 0, all)
    requires Swept(mid, after, i, completed, all + more)
    ensures Swept(before, after, i, completed, all + more)
  {
    forall s | 0 <= s < SLOTS
      ensures after[s].maddr == Maddr(before[s].maddr, Dist(i, s), completed, all + more)
    {
      assert mid[s].maddr == Maddr(before[s].maddr, Dist(i, s), 0, all);
    }
  }

  /** The slot of the completed head is cleared last, after everything the later completions have done. */
  lemma {:induction false} SweptAfterClear<T>(before: seq<Slot<T>>, mid: seq<Slot<T>>, after: seq<Slot<T>>,
                                              end: seq<Slot<T>>,
                                              i: nat, completed: nat, all: seq<Request<T>>, more: seq<Request<T>>)
    requires |before| == |mid| == |after| == |end| == SLOTS && i < SLOTS && all != []
    requires Swept(before, mid, i, 0, all)
    requires Swept(mid, after, Next(i), completed, all[1..] + more)
    requires end == after[i := after[i].(maddr := 0)]
    ensures Swept(before, end, i, completed + 1, all + more)
  {
    forall s | 0 <= s < SLOTS
      ensures end[s].maddr == Maddr(before[s].maddr, Dist(i, s), completed + 1, all + more)
    {
      assert mid[s].maddr == Maddr(before[s].maddr, Dist(i, s), 0, all);
      assert after[s].maddr == Maddr(mid[s].maddr, Dist(Next(i), s), completed, all[1..] + more);
      assert s != i ==> Dist(Next(i), s) == Dist(i, s) - 1;
      assert all + more == [all[0]] + (all[1..] + more);
    }
  }

  /** What completing the head adds to the step that the rest of the queue takes. */
  lemma {:induction false} FinishUnfolds<T>(q: seq<Request<T>>, calls: seq<Callback<T>>)
    requires 0 < |q| < SLOTS
    ensures var fit := Fit(q, q[0].followUps);
            var o := Settle((q + fit)[1..]);
            && calls + [PostDma(q[0])] + [Done(q[0])] + Trace(o) == calls + Trace(Finish(q))
            && (q + fit) + o.accepted == q + Finish(q).accepted
  {
    var fit := Fit(q, q[0].followUps);
    var o := Settle((q + fit)[1..]);
    assert ([q[0]] + o.done)[1..] == o.done;
    assert Trace(Finish(q)) == [PostDma(q[0]), Done(q[0])] + Trace(o);
  }

  /** A transfer without follow-ups never makes the ring take a slot twice. */
  lemma {:induction false} SingleFits<T>(q: seq<Request<T>>, r: Request<T>)
    requires Settled(q) && NonNull(q) && r.followUps == [] && r.addr != 0
    ensures StepFits(q, Submit(q, r))
  {
    ModestSettles([r]);
    SubmitConserves(q, r);
    hide Blocks, Settled;
    var o := Submit(q, r);
    assert o.accepted == [r] || o.accepted == [];
    assert o.queue == (q + o.accepted)[|o.done|..];
  }

  lemma {:induction false} AdvanceIsModular(i: nat, n: nat)
    requires i < SLOTS
    ensures Advance(i, n) == (i + n) % SLOTS
    decreases n
  {
    if n != 0 {
      AdvanceIsModular(Next(i), n - 1);
      assert (Next(i) + (n - 1)) % SLOTS == (i + n) % SLOTS;
    }
  }

  /** Slots marked by a nonzero maddr are exactly the n slots from i on. */
  predicate MarkedFrom<T>(slots: seq<Slot<T>>, i: nat, n: nat)
    requires |slots| == SLOTS && i < SLOTS
  {
    forall s | 0 <= s < SLOTS :: slots[s].maddr != 0 <==> Dist(i, s) < n
  }

  /** The slots from i on still carry the addresses of the given transfers. */
  predicate AddressedFrom<T>(slots: seq<Slot<T>>, i: nat, live: seq<Request<T>>)
    requires |slots| == SLOTS && i < SLOTS
  {
    forall s | 0 <= s < SLOTS && Dist(i, s) < |live| :: slots[s].maddr == live[Dist(i, s)].addr
  }

  /** Where no slot is taken twice, a step leaves addresses in the slots of what is queued and clears the rest. */
  lemma {:induction false} SweptKeeps<T>(before: seq<Slot<T>>, after: seq<Slot<T>>, i: nat, n: nat, completed: nat,
                                         all: seq<Request<T>>)
    requires |before| == |after| == SLOTS && i < SLOTS
    requires MarkedFrom(before, i, n) && n <= |all|
    requires Swept(before, after, i, completed, all)
    requires completed <= |all| && (|all| == completed || |all| <= SLOTS)
    ensures Advance(i, completed) < SLOTS
    ensures AddressedFrom(after, Advance(i, completed), all[completed..])
    ensures forall s | 0 <= s < SLOTS && Dist(Advance(i, completed), s) >= |all| - completed :: after[s].maddr == 0
  {
    AdvanceIsModular(i, completed);
    var rd := Advance(i, completed);
    forall s | 0 <= s < SLOTS
      ensures Dist(rd, s) < |all| - completed ==> after[s].maddr == all[Dist(rd, s) + completed].addr
      ensures Dist(rd, s) >= |all| - completed ==> after[s].maddr == 0
    {
      assert after[s].maddr == Maddr(before[s].maddr, Dist(i, s), completed, all);
    }
  }

  /** The exact condition under which a step that completes some transfers marks what is left: no address is
      null, and no slot of a completed transfer was taken again by one that is still live. */
  lemma {:induction false} MarkedIff<T>(before: seq<Slot<T>>, after: seq<Slot<T>>, i: nat, n: nat, completed: nat,
                                        all: seq<Request<T>>)
    requires |before| == |after| == SLOTS && i < SLOTS
    requires MarkedFrom(before, i, n) && n <= |all|
    requires Swept(before, after, i, completed, all)
    requires completed <= |all| < completed + SLOTS
    ensures Advance(i, completed) < SLOTS
    ensures MarkedFrom(after, Advance(i, completed), |all| - completed)
            <==> NonNull(all[completed..]) && (|all| == completed || |all| <= SLOTS)
    ensures |all| == completed || |all| <= SLOTS ==> AddressedFrom(after, Advance(i, completed), all[completed..])
  {
    AdvanceIsModular(i, completed);
    var rd := Advance(i, completed);
    if |all| != completed && |all| > SLOTS {
      // The first slot is live again, or, after a whole lap, the new head is; either was cleared.
      var s := if completed <= SLOTS then i else rd;
      assert after[s].maddr == 0;
      assert Dist(rd, s) < |all| - completed;
    } else {
      SweptKeeps(before, after, i, n, completed, all);
      if MarkedFrom(after, rd, |all| - completed) {
        var rest := all[completed..];
        forall j | 0 <= j < |rest|
          ensures rest[j].addr != 0
        {
          var s := if rd + j < SLOTS then rd + j else rd + j - SLOTS;
          assert Dist(rd, s) == j && after[s].maddr != 0;
        }
      }
    }
  }

  lemma {:induction false} OneCompletion<T>(r: Request<T>)
    requires Blocks(r.size) == 0 && r.followUps == []
    ensures var o := Submit([], r); o == Outcome([r], [], [r]) && Trace(o) == [PostDma(r), Done(r)]
  {
    SettleOne(r);
    assert [r][1..] == [];
    assert Completions<T>([]) == [];
  }

  class Driver<T> {
    const tqueue: array<Slot<T>>
    var writeIdx: nat
    var readIdx: nat
    var engine: Engine
    var callbacks: seq<Callback<T>>
    ghost var live: seq<Request<T>>

    /** The ring holds the live transfers, in order from readIdx. */
    ghost predicate Linked()
      reads this, tqueue
    {
      && tqueue.Length == SLOTS && readIdx < SLOTS && |live| < SLOTS
      && writeIdx < SLOTS && Dist(readIdx, writeIdx) == |live|
      && forall s | 0 <= s < SLOTS && Dist(readIdx, s) < |live| ::
           var r := live[Dist(readIdx, s)]; tqueue[s].req == r && tqueue[s].bcr == Bcr(r.size)
    }

    /** Live transfers have their address. It can only be lost when a step ends. */
    ghost predicate Addressed()
      requires Linked()
      reads this, tqueue
    {
      forall s | 0 <= s < SLOTS && Dist(readIdx, s) < |live| :: tqueue[s].maddr == live[Dist(readIdx, s)].addr
    }

    /** The engine is busy iff the queue is not empty, and then with the head, which has a full block. */
    ghost predicate EngineOnHead()
      reads this
    {
      && engine == (if live == [] then Idle else Running(live[0].addr, Bcr(live[0].size)))
      && Settled(live)
    }

    ghost predicate Valid()
      reads this, tqueue
    {
      && Linked() && Addressed() && EngineOnHead() && NonNull(live)
      && MarkedFrom(tqueue[..], readIdx, |live|) // how the interrupt handler recognises live transfers
    }

    constructor (blank: Request<T>)
      ensures Valid() && live == [] && callbacks == [] && fresh(tqueue)
    {
      tqueue := new Slot<T>[SLOTS](_ => Slot(0, 0, blank));
      writeIdx, readIdx, engine, callbacks, live := 0, 0, Idle, [], [];
    }

    method Start(i: nat)
      requires Linked() && Addressed() && live != [] && i == readIdx
      modifies this`engine, this`callbacks
      ensures engine == Running(live[0].addr, Bcr(live[0].size))
      ensures callbacks == old(callbacks) + [PreDma(live[0])]
    {
      var tr := tqueue[i];
      callbacks := callbacks + [PreDma(tr.req)];
      engine := Running(tr.maddr, tr.bcr);
    }

    method TryStart(i: nat)
      requires Linked() && Addressed() && live != [] && i == readIdx && engine == Idle
      modifies this, tqueue
      ensures Linked() && EngineOnHead()
      ensures var o := Settle(old(live));
              && live == o.queue
              && readIdx == Advance(i, |o.done|)
              && callbacks == old(callbacks) + Trace(o)
              && Swept(old(tqueue[..]), tqueue[..], i, |o.done|, old(live) + o.accepted)
      decreases Weight(live), 2
    {
      if tqueue[i].bcr / 0x1_0000 == 0 {
        Complete(i);
      } else {
        Start(i);
        assert live + [] == live;
      }
    }

    method Complete(i: nat)
      requires Linked() && Addressed() && live != [] && i == readIdx && engine == Idle
      modifies this, tqueue
      ensures Linked() && EngineOnHead()
      ensures var o := Finish(old(live));
              && live == o.queue
              && readIdx == Advance(i, |o.done|)
              && callbacks == old(callbacks) + Trace(o)
              && Swept(old(tqueue[..]), tqueue[..], i, |o.done|, old(live) + o.accepted)
      decreases Weight(live), 1
    {
      var tr := tqueue[i].req;
      callbacks := callbacks + [PostDma(tr)];
      callbacks := callbacks + [Done(tr)];
      Callback(tr);
      ghost var mid, all := tqueue[..], live;
      Pop();
      FitWeight(old(live));
      ghost var o := Settle(live);
      StartNext();
      ghost var after := tqueue[..];
      Invalidate(i);
      FinishUnfolds(old(live), old(callbacks));
      SweptAfterClear(old(tqueue[..]), mid, after, tqueue[..], i, |o.done|, all, o.accepted);
    }

    /** Starts the next transfer if the queue is not empty. */
    method StartNext()
      requires Linked() && Addressed() && engine == Idle
      modifies this, tqueue
      ensures Linked() && EngineOnHead()
      ensures var o := Settle(old(live));
              && live == o.queue
              && readIdx == Advance(old(readIdx), |o.done|)
              && callbacks == old(callbacks) + Trace(o)
              && Swept(old(tqueue[..]), tqueue[..], old(readIdx), |o.done|, old(live) + o.accepted)
      decreases Weight(live), 3
    {
      if writeIdx != readIdx {
        TryStart(readIdx);
      }
    }

    method Pop()
      requires Linked() && Addressed() && live != []
      modifies this`readIdx, this`live
      ensures Linked() && Addressed()
      ensures readIdx == Next(old(readIdx)) && live == old(live)[1..]
    {
      readIdx := Next(readIdx);
      live := live[1..];
    }

    method Invalidate(i: nat)
      requires Linked() && i < SLOTS
      modifies tqueue
      ensures Linked() && tqueue[..] == old(tqueue[..])[i := old(tqueue[i]).(maddr := 0)]
    {
      tqueue[i] := tqueue[i].(maddr := 0);
    }

    /** The done callback submits its follow-ups. The completed transfer is still queued, so none starts. */
    method Callback(tr: Request<T>)
      requires Linked() && Addressed() && live != []
      modifies this, tqueue
      ensures Linked() && Addressed()
      ensures readIdx == old(readIdx) && engine == old(engine) && callbacks == old(callbacks)
      ensures live == old(live) + Fit(old(live), tr.followUps)
      ensures Swept(old(tqueue[..]), tqueue[..], readIdx, 0, live)
      decreases 0, 4
    {
      hide Bcr, Weight, Settle, Trace;
      for n := 0 to |tr.followUps|
        invariant Linked() && Addressed()
        invariant readIdx == old(readIdx) && engine == old(engine) && callbacks == old(callbacks)
        invariant live == old(live) + Fit(old(live), tr.followUps[..n])
        invariant Swept(old(tqueue[..]), tqueue[..], readIdx, 0, live)
      {
        var rv := TransferLocked(tr.followUps[n]);
      }
      assert tr.followUps[..|tr.followUps|] == tr.followUps;
    }

    /** Fills the slot at the write index. */
    method Put(r: Request<T>)
      requires Linked() && Addressed() && |live| < SLOTS - 1
      modifies this`writeIdx, this`live, tqueue
      ensures Linked() && Addressed()
      ensures live == old(live) + [r]
      ensures Swept(old(tqueue[..]), tqueue[..], readIdx, 0, live)
    {
      tqueue[writeIdx] := Slot(r.addr, Bcr(r.size), r);
      writeIdx := Next(writeIdx);
      live := live + [r];
    }

    /** The head of the queue has lost its address, or never had one. */
    ghost predicate Jammed()
      reads this, tqueue
    {
      Linked() && Addressed() && EngineOnHead() && live != [] && tqueue[readIdx].maddr == 0
    }

    lemma {:induction false} HeadIsMarked()
      requires Valid()
      ensures tqueue[readIdx].maddr == 0 <==> live == []
    {
      assert tqueue[..][readIdx].maddr != 0 <==> Dist(readIdx, readIdx) < |live|;
    }

    /** _dev9_dma_intr_handler. The engine has gone idle, unless the interrupt is taken for spurious. */
    method InterruptHandler()
      requires Valid() || Jammed()
      modifies this, tqueue
      ensures old(tqueue[readIdx].maddr == 0) <==> old(live == [] || Jammed())
      ensures old(tqueue[readIdx].maddr == 0) ==> unchanged(this) && unchanged(tqueue)
      ensures Linked() && EngineOnHead()
      ensures old(Valid()) ==>
                var o := Interrupt(old(live));
                && live == o.queue
                && callbacks == old(callbacks) + (if old(live) == [] then [] else Trace(o))
                && (Valid() <==> StepFits(old(live), o))
    {
      hide MarkedFrom, Swept;
      if Valid() { HeadIsMarked(); }
      if tqueue[readIdx].maddr == 0 {
        return;
      }
      engine := Idle;
      Complete(readIdx);
      ghost var o := Interrupt(old(live));
      InterruptConserves(old(live));
      MarkedIff(old(tqueue[..]), tqueue[..], old(readIdx), |old(live)|, |o.done|, old(live) + o.accepted);
      assert (o.done + o.queue)[|o.done|..] == o.queue;
    }

    /** The body of dev9_dma_transfer, which runs with interrupts off and which callbacks re-enter. */
    method TransferLocked(r: Request<T>) returns (rv: int)
      requires Linked() && Addressed() && (live == [] ==> engine == Idle)
      modifies this, tqueue
      ensures Linked() && (old(live) != [] ==> Addressed())
      ensures if old(live) == [] then EngineOnHead() else engine == old(engine)
      ensures var o := Submit(old(live), r);
              && live == o.queue
              && readIdx == Advance(old(readIdx), |o.done|)
              && callbacks == old(callbacks) + (if old(live) == [] then Trace(o) else [])
              && rv == (if |old(live)| == SLOTS - 1 then -1 else 0)
              && Swept(old(tqueue[..]), tqueue[..], old(readIdx), |o.done|, old(live) + o.accepted)
      decreases if live == [] then Weight([r]) else 0, 3
    {
      ghost var o := Submit(old(live), r);
      rv := 0;
      if Next(writeIdx) == readIdx {
        assert live + [] == live;
        rv := -1;
      } else {
        var stopped := writeIdx == readIdx;
        var i := writeIdx;
        Put(r);
        ghost var mid := tqueue[..];
        if stopped {
          assert old(live) + [r] == [r];
          TryStart(i);
          SweptAfterFill(old(tqueue[..]), mid, tqueue[..], i, |o.done|, [r], Settle([r]).accepted);
          assert old(live) + o.accepted == o.accepted;
        }
      }
    }

    /** dev9_dma_transfer called from outside the callbacks, between two steps. */
    method Transfer(r: Request<T>) returns (rv: int)
      requires Valid()
      modifies this, tqueue
      ensures Linked() && EngineOnHead()
      ensures var o := Submit(old(live), r);
              && live == o.queue
              && callbacks == old(callbacks) + (if old(live) == [] then Trace(o) else [])
              && rv == (if |old(live)| == SLOTS - 1 then -1 else 0)
              && (Valid() <==> StepFits(old(live), o))
    {
      rv := TransferLocked(r);
      ghost var o := Submit(old(live), r);
      SubmitConserves(old(live), r);
      MarkedIff(old(tqueue[..]), tqueue[..], old(readIdx), |old(live)|, |o.done|, old(live) + o.accepted);
      assert (o.done + o.queue)[|o.done|..] == o.queue;
    }

    /** A null address jams the idle queue, unless the transfer has no full block to wait for. */
    method NullTransfer(r: Request<T>) returns (rv: int)
      requires Valid() && live == [] && r.addr == 0
      modifies this, tqueue
      ensures Blocks(r.size) > 0 ==> Jammed() && live == [r] && callbacks == old(callbacks) + [PreDma(r)]
      ensures Blocks(r.size) == 0 && r.followUps == [] ==>
                Valid() && live == [] && callbacks == old(callbacks) + [PostDma(r), Done(r)]
    {
      ghost var before := tqueue[..];
      if Blocks(r.size) > 0 {
        assert Settle([r]) == Outcome([], [r], []);
        rv := TransferLocked(r);
        assert tqueue[readIdx].maddr == Maddr(before[readIdx].maddr, 0, 0, [r]);
      } else {
        if r.followUps == [] { OneCompletion(r); }
        rv := Transfer(r);
      }
    }

    /** A jammed queue stays so: whatever interrupts and submissions follow, nothing more completes or starts. */
    method StayJammed(steps: seq<Stimulus<T>>)
      requires Jammed()
      modifies this, tqueue
      ensures Jammed() && callbacks == old(callbacks) && engine == old(engine) && old(live) <= live
    {
      for i := 0 to |steps|
        invariant Jammed() && callbacks == old(callbacks) && engine == old(engine) && old(live) <= live
      {
        match steps[i]
        case Irq => InterruptHandler();
        case Call(r) => var rv := TransferLocked(r);
      }
    }
  }

  /** The callbacks that end transfers. */
  function Endings<T>(calls: seq<Callback<T>>): seq<Callback<T>>
  {
    if calls == [] then [] else (if calls[0].PreDma? then [] else [calls[0]]) + Endings(calls[1..])
  }

  lemma {:induction false} EndingsAppend<T>(a: seq<Callback<T>>, b: seq<Callback<T>>)
    ensures Endings(a + b) == Endings(a) + Endings(b)
  {
    if a == [] {
      assert a + b == b;
    } else {
      assert (a + b)[0] == a[0] && (a + b)[1..] == a[1..] + b;
      EndingsAppend(a[1..], b);
    }
  }

  lemma {:induction false} EndingsOfCompletions<T>(done: seq<Request<T>>)
    ensures Endings(Completions(done)) == Completions(done)
  {
    if done != [] {
      var pair := [PostDma(done[0]), Done(done[0])];
      EndingsOfCompletions(done[1..]);
      EndingsAppend(pair, Completions(done[1..]));
      assert pair[1..] == [Done(done[0])] && pair[1..][1..] == [];
    }
  }

  lemma {:induction false} EndingsOfTrace<T>(o: Outcome<T>)
    ensures Endings(Trace(o)) == Completions(o.done)
  {
    EndingsOfCompletions(o.done);
    EndingsAppend(Completions(o.done), if o.queue == [] then [] else [PreDma(o.queue[0])]);
  }

  lemma {:induction false} CompletionsAppend<T>(a: seq<Request<T>>, b: seq<Request<T>>)
    ensures Completions(a + b) == Completions(a) + Completions(b)
  {
    if a == [] {
      assert a + b == b;
    } else {
      var pair := [PostDma(a[0]), Done(a[0])];
      assert (a + b)[0] == a[0] && (a + b)[1..] == a[1..] + b;
      CompletionsAppend(a[1..], b);
      Regroup(pair, Completions(a[1..]), Completions(b));
    }
  }

  /** The callbacks after one more step. */
  lemma {:induction false} EndingsGrow<T>(calls: seq<Callback<T>>, done: seq<Request<T>>, o: Outcome<T>, traced: bool)
    requires Endings(calls) == Completions(done) && (!traced ==> o.done == [])
    ensures Endings(calls + if traced then Trace(o) else []) == Completions(done + o.done)
  {
    EndingsAppend(calls, if traced then Trace(o) else []);
    EndingsOfTrace(o);
    CompletionsAppend(done, o.done);
    assert Endings<T>([]) == [];
  }

  /** From power-on the ring follows the queue over every run that it can follow: between steps its invariant holds,
      the live transfers are those of the queue, and every completed transfer has had its post-DMA and its done
      callback, once each and in order. */
  method Follow<T>(blank: Request<T>, steps: seq<Stimulus<T>>) returns (d: Driver<T>)
    requires Fitting(steps)
    ensures fresh(d) && d.Valid()
    ensures d.live == After(steps).queue && Endings(d.callbacks) == Completions(After(steps).done)
  {
    d := new Driver<T>(blank);
    for i := 0 to |steps|
      invariant fresh(d) && fresh(d.tqueue) && d.Valid()
      invariant d.live == After(steps[..i]).queue && Endings(d.callbacks) == Completions(After(steps[..i]).done)
    {
      FittingPrefix(steps, i + 1);
      assert steps[..i + 1][..i] == steps[..i];
      ghost var q, calls, done := d.live, d.callbacks, After(steps[..i]).done;
      match steps[i] {
        case Irq =>
          EndingsGrow(calls, done, Interrupt(q), q != []);
          d.InterruptHandler();
        case Call(r) =>
          SubmitMakesNoCallsIfBusy(q, r);
          EndingsGrow(calls, done, Submit(q, r), q == []);
          var rv := d.Transfer(r);
      }
    }
    assert steps[..|steps|] == steps;
  }

  lemma {:induction false} FittingPrefix<T>(steps: seq<Stimulus<T>>, k: nat)
    requires Fitting(steps) && k <= |steps|
    ensures Fitting(steps[..k])
  {
    if k < |steps| {
      FittingPrefix(steps[..|steps| - 1], k);
      assert steps[..|steps| - 1][..k] == steps[..k];
    } else {
      assert steps[..k] == steps;
    }
  }

  lemma {:induction false} SubmitMakesNoCallsIfBusy<T>(q: seq<Request<T>>, r: Request<T>)
    requires Settled(q)
    ensures q != [] ==> Submit(q, r).done == []
  {
  }
}
