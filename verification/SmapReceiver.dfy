/** The receive side of smap.c as it changes its globals, over the ring driver of the DMA queue. Every method is
    proved to do what SmapRx says. */
module SmapReceiver {
  import opened DmaQueue
  import opened BumpRing
  import opened SmapBd
  import opened SmapRx
  import DmaShare
  import Dev9Dma
  import PbufPool
  import RxInvariant
  import RxLoop

  /** The transfers whose done callback is made, in order. */
  function DoneOf<T>(calls: seq<Dev9Dma.Callback<T>>): seq<Request<T>>
  {
    if calls == [] then [] else (if calls[0].Done? then [calls[0].r] else []) + DoneOf(calls[1..])
  }

  lemma {:induction false} DoneOfAppend<T>(a: seq<Dev9Dma.Callback<T>>, b: seq<Dev9Dma.Callback<T>>)
    ensures DoneOf(a + b) == DoneOf(a) + DoneOf(b)
    decreases |a|
  {
    if a == [] {
      assert a + b == b;
    } else {
      assert (a + b)[0] == a[0] && (a + b)[1..] == a[1..] + b;
      DoneOfAppend(a[1..], b);
    }
  }

  lemma {:induction false} DoneOfCompletions<T>(done: seq<Request<T>>)
    ensures DoneOf(Dev9Dma.Completions(done)) == done
    decreases |done|
  {
    if done != [] {
      DoneOfCompletions(done[1..]);
      var pair := [Dev9Dma.PostDma(done[0]), Dev9Dma.Done(done[0])];
      DoneOfAppend(pair, Dev9Dma.Completions(done[1..]));
      assert pair[1..] == [Dev9Dma.Done(done[0])] && pair[1..][1..] == [];
    }
  }

  lemma {:induction false} DoneOfTrace<T>(o: Outcome<T>)
    ensures DoneOf(Dev9Dma.Trace(o)) == o.done
  {
    DoneOfCompletions(o.done);
    DoneOfAppend(Dev9Dma.Completions(o.done), if o.queue == [] then [] else [Dev9Dma.PreDma(o.queue[0])]);
  }

  lemma {:induction false} ServeOne(s: Smap, calls: seq<Dev9Dma.Callback<DmaShare.Payload<Job>>>, i: nat)
    requires i < |calls|
    ensures CompleteAll(s, DoneOf(calls[i..]))
            == CompleteAll(if calls[i].Done? then Complete(s, calls[i].r) else s, DoneOf(calls[i + 1..]))
  {
    var rest := DoneOf(calls[i + 1..]);
    assert calls[i..][1..] == calls[i + 1..];
    if calls[i].Done? {
      assert ([calls[i].r] + rest)[1..] == rest;
    } else {
      assert [] + rest == rest;
    }
  }

  class Receiver {
    const base: Base
    const bd: array<Bd>
    const dma: Dev9Dma.Driver<DmaShare.Payload<Job>>
    var rxIndex: Index
    var dataPtr: nat
    var decs: nat
    var inputs: seq<Job>
    ghost var filled: nat
    var visited: nat // numbers the frames
    ghost var pieces: seq<Piece>

    ghost predicate Shaped()
      reads this, dma
    {
      bd.Length == BDS && Settled(dma.live) && rxIndex == visited % BDS
    }

    ghost predicate Valid()
      reads this, dma, dma.tqueue
    {
      Shaped() && dma.Valid()
    }

    ghost function State(): Smap
      requires Shaped()
      reads this, bd, dma
    {
      Smap(base, bd[..], rxIndex, dataPtr, dma.live, decs, inputs, filled, visited, pieces)
    }

    /** RXBDInit, with an idle DMA queue. */
    constructor (base: Base)
      ensures Valid() && State() == Init(base)
      ensures fresh(bd) && fresh(dma) && fresh(dma.tqueue)
    {
      this.base := base;
      bd := new Bd[BDS](_ => Bd(EMPTY, 0, 0));
      dma := new Dev9Dma.Driver<DmaShare.Payload<Job>>(Request(DmaShare.Other, 0, 0, []));
      rxIndex, dataPtr, decs, inputs, filled, visited, pieces := 0, 0, 0, [], 0, 0, [];
      new;
      assert bd[..] == seq(BDS, _ => Bd(EMPTY, 0, 0));
    }

    /** The register write and the status of a descriptor that goes back to the chip. */
    method GiveBack(d: Index)
      requires Shaped()
      modifies this`decs, bd
      ensures State() == Return(old(State()), d)
    {
      decs := decs + 1;
      bd[d] := bd[d].(ctrl := EMPTY);
    }

    /** SMAP_BD_NEXT(u8RXIndex). */
    method NextBd()
      requires Shaped()
      modifies this`rxIndex, this`visited
      ensures Shaped() && State() == Visit(old(State()))
    {
      RxInvariant.NextMod(visited);
      rxIndex := Next(rxIndex);
      visited := visited + 1;
    }

    /** Makes the callbacks that the DMA queue has asked for. */
    method Serve(calls: seq<Dev9Dma.Callback<DmaShare.Payload<Job>>>)
      requires Shaped()
      modifies this, bd
      ensures Shaped() && State() == CompleteAll(old(State()), DoneOf(calls))
    {
      for i := 0 to |calls|
        invariant Shaped() && CompleteAll(State(), DoneOf(calls[i..])) == CompleteAll(old(State()), DoneOf(calls))
      {
        ServeOne(State(), calls, i);
        if calls[i].Done? && calls[i].r.payload.Own? {
          var job := calls[i].r.payload.job;
          GiveBack(job.index);
          inputs := inputs + [job];
        }
      }
    }

    method DmaTransfer(r: Transfer) returns (rv: int)
      requires Valid()
      requires StepFits(dma.live, Submit(dma.live, r))
      modifies this, bd, dma, dma.tqueue
      ensures Valid()
      ensures State() == SmapRx.DmaTransfer(old(State()), r)
    {
      ghost var s, o := State(), Submit(dma.live, r);
      var n := |dma.callbacks|;
      rv := dma.Transfer(r);
      assert State() == s.(queue := o.queue);
      DoneOfTrace(o);
      Serve(dma.callbacks[n..]);
    }

    method DmaInterrupt()
      requires Valid()
      requires StepFits(dma.live, Interrupt(dma.live))
      modifies this, bd, dma, dma.tqueue
      ensures Valid()
      ensures State() == SmapRx.DmaInterrupt(old(State()))
    {
      ghost var s, o := State(), Interrupt(dma.live);
      var n := |dma.callbacks|;
      dma.InterruptHandler();
      assert State() == s.(queue := o.queue);
      DoneOfTrace(o);
      Serve(dma.callbacks[n..]);
    }

    /** HandleRX; granted is whether pbuf_alloc finds a buffer. */
    method HandleRx(granted: bool) returns (rv: int)
      requires Valid()
      modifies this, bd, dma, dma.tqueue
      ensures Valid()
      ensures old(bd[rxIndex].Empty()) ==> rv == 0 && State() == old(State())
      ensures !old(bd[rxIndex].Empty()) ==> rv != 0 && State() == SmapRx.HandleRx(old(State()), granted)
      ensures var frame := old(bd[rxIndex]);
              rv == if frame.Empty() then 0
                    else if frame.ctrl % 0x400 != 0 then -1
                    else if frame.length < 14 || frame.length > 1518 then -2
                    else if granted then 1
                    else -1
    {
      hide SmapRx.DmaTransfer, Submit, StepFits, Settled, ReadPlace;
      var d := rxIndex;
      var frame := bd[d];
      if frame.Empty() {
        return 0;
      }
      var len := Aligned(frame.length);
      if frame.Error() {
        GiveBack(d);
        NextBd();
        return -1;
      }
      if frame.length < RXMINSIZE || frame.length > RXMAXSIZE {
        GiveBack(d);
        NextBd();
        return -2;
      }
      if RX_BUFFER_SIZE - dataPtr < len {
        dataPtr := 0;
      }
      if !granted {
        GiveBack(d);
        NextBd();
        return -1;
      }
      var at := dataPtr;
      dataPtr := dataPtr + len;
      pieces := pieces + [Piece(at, len, len)];
      var r := RxTransfer(base, Job(visited, d, at, frame.length, ReadPlace(frame.pointer)));
      Dev9Dma.SingleFits(dma.live, r);
      NextBd();
      var failed := DmaTransfer(r);
      return 1;
    }

    /** HandleRXInt: n calls of HandleRX find a frame, and one more does not. pool says for which frames the packet
        buffers have one. */
    method HandleRxInt(pool: nat -> bool, buffers: PbufPool.State, sif: nat -> RxLoop.Sif) returns (ghost n: nat)
      requires Valid() && var x := RxLoop.Both(State(), buffers); RxLoop.Matching(x) && pool == RxLoop.Pool(x, sif)
      modifies this, bd, dma, dma.tqueue
      ensures Valid()
      ensures State() == RxInvariant.Rounds(old(State()), pool, n) && RxInvariant.Stopped(State())
      ensures forall i | 0 <= i < n :: !RxInvariant.Stopped(RxInvariant.Rounds(old(State()), pool, i))
      ensures n <= 2 * BDS
    {
      hide SmapRx.HandleRx, RxInvariant.Rounds, RxLoop.Loop, RxLoop.Pool, Settled;
      ghost var s := State();
      ghost var x := RxLoop.Both(s, buffers);
      ghost var end := RxLoop.LoopEnds(x, sif);
      RxLoop.LoopIsRounds(x, sif, end);
      RxInvariant.NoRounds(s, pool);
      n := 0;
      var rv := 1;
      while rv != 0
        invariant Valid() && n <= end && State() == RxInvariant.Rounds(s, pool, n)
        invariant forall i | 0 <= i < n :: !RxInvariant.Stopped(RxInvariant.Rounds(s, pool, i))
        invariant rv == 0 ==> RxInvariant.Stopped(State())
        decreases end - n, rv != 0
      {
        RxInvariant.RoundsSplit(s, pool, n);
        rv := HandleRx(pool(visited));
        if rv != 0 { n := n + 1; }
      }
    }
  }
}
