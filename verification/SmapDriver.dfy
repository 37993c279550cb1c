/** The transmit side of smap.c as it changes its globals, over the ring driver of the DMA queue. Every method is
    proved to do what SmapTx says. */
module SmapDriver {
  import opened DmaQueue
  import DmaShare
  import opened SmapBd
  import opened SmapTx
  import Dev9Dma

  /** The effect of one callback of the DMA queue. */
  function Call(s: Smap, c: Dev9Dma.Callback<DmaShare.Payload<Job>>): Smap
  {
    match c
    case PreDma(r) => PreDma(s, r)
    case PostDma(r) => if r.payload.Own? then WriteWords(s, Tail(r)) else s
    case Done(r) => if r.payload.Own? then TxDone(s, r.payload.job) else s
  }

  function Calls(s: Smap, cs: seq<Dev9Dma.Callback<DmaShare.Payload<Job>>>): Smap
    decreases |cs|
  {
    if cs == [] then s else Calls(Call(s, cs[0]), cs[1..])
  }

  lemma {:induction false} CallsAppend(s: Smap, a: seq<Dev9Dma.Callback<DmaShare.Payload<Job>>>,
                                         b: seq<Dev9Dma.Callback<DmaShare.Payload<Job>>>)
    ensures Calls(s, a + b) == Calls(Calls(s, a), b)
    decreases |a|
  {
    if a == [] {
      assert a + b == b;
    } else {
      assert (a + b)[1..] == a[1..] + b;
      CallsAppend(Call(s, a[0]), a[1..], b);
    }
  }

  lemma {:induction false} CompletionsAreCalls(s: Smap, done: seq<Transfer>)
    ensures Calls(s, Dev9Dma.Completions(done)) == CompleteAll(s, done)
    decreases |done|
  {
    if done != [] {
      var pair := [Dev9Dma.PostDma(done[0]), Dev9Dma.Done(done[0])];
      CallsAppend(s, pair, Dev9Dma.Completions(done[1..]));
      assert pair[1..][1..] == [];
      assert Calls(s, pair) == Calls(Call(Call(s, pair[0]), pair[1]), pair[1..][1..]);
      CompletionsAreCalls(Complete(s, done[0]), done[1..]);
    }
  }

  /** Following the callbacks that the ring driver makes in a step has the effect that SmapTx gives the step. */
  lemma {:induction false} TraceIsApply(s: Smap, o: Outcome<DmaShare.Payload<Job>>)
    requires Settled(o.queue)
    ensures Calls(s.(queue := o.queue), Dev9Dma.Trace(o)) == Apply(s, o, true)
  {
    var t := s.(queue := o.queue);
    CompletionsAreCalls(t, o.done);
    CallsAppend(t, Dev9Dma.Completions(o.done), if o.queue == [] then [] else [Dev9Dma.PreDma(o.queue[0])]);
  }

  lemma {:induction false} PtrShift(p: Ptr, a: nat, b: nat)
    ensures ((p + a) % TXBUFSIZE + b) % TXBUFSIZE == (p + (a + b)) % TXBUFSIZE
  {
  }

  lemma {:induction false} FirstWordFirst(s: Smap, ws: seq<Word>)
    requires ws != []
    ensures WriteWords(s, ws) == WriteWords(WriteWords(s, [ws[0]]), ws[1..])
  {
    PtrShift(s.wrPtr, 4, 4 * |ws[1..]|);
    var one := [ws[0]];
    assert one[1..] == [];
    assert Poke(s.mem, s.wrPtr, one) == s.mem[s.wrPtr / 4 := ws[0]];
  }

  /** One round of HandleTXInt. */
  lemma {:induction false} TxIntFacts(s: Smap, clean: bool)
    ensures s.indexStart == s.indexEnd ==>
              ReleaseSent(s) == s
                && TxIntResult(s, clean) == if s.indexStart == s.indexDma then 2 else if clean then 1 else 0
    ensures s.indexStart != s.indexEnd ==>
              var still := clean && !s.bd[s.indexStart].Error();
              && (s.bd[s.indexStart].Ready() ==> ReleaseSent(s) == s && TxIntResult(s, clean) == if still then 1 else 0)
              && (!s.bd[s.indexStart].Ready() ==>
                    var t := Release(s);
                    && ReleaseSent(s) == ReleaseSent(t) && TxIntResult(s, clean) == TxIntResult(t, still)
                    && (t.indexEnd - t.indexStart) % BDS < (s.indexEnd - s.indexStart) % BDS)
  {
  }

  lemma {:induction false} TxIntEnds(s: Smap, t: Smap)
    requires t == ReleaseSent(s)
    ensures t.indexStart != t.indexEnd ==> SmapTx.HandleTxInt(s) == t
    ensures t.indexStart == t.indexEnd ==>
              SmapTx.HandleTxInt(s) == if t.indexStart == t.indexDma then t.(ptrStart := t.ptrEnd) else t
  {
  }

  class Transmitter {
    const bd: array<Bd>
    const mem: array<Word> // the chip's transmit memory
    const dma: Dev9Dma.Driver<DmaShare.Payload<Job>>
    var linkValid: bool
    var ptrStart: Ptr
    var ptrEnd: Ptr
    var indexStart: Index
    var indexDma: Index
    var indexEnd: Index
    var wrPtr: Ptr // the chip's write pointer
    var moved: nat
    var acked: seq<nat>
    ghost var sent: seq<Frame>
    ghost var published: nat
    ghost var released: nat

    ghost predicate Shaped()
      reads this, dma
    {
      bd.Length == BDS && mem.Length == TXWORDS && Settled(dma.live)
    }

    ghost predicate Valid()
      reads this, dma, dma.tqueue
    {
      Shaped() && dma.Valid()
    }

    ghost function State(): Smap
      requires Shaped()
      reads this, bd, mem, dma
    {
      Smap(linkValid, ptrStart, ptrEnd, indexStart, indexDma, indexEnd, bd[..], mem[..], wrPtr, moved,
           dma.live, acked, sent, published, released)
    }

    /** TXBDInit, with an idle DMA queue and whatever the transmit memory contains. */
    constructor ()
      ensures Valid() && State() == Init(mem[..])
      ensures fresh(bd) && fresh(mem) && fresh(dma) && fresh(dma.tqueue)
    {
      bd := new Bd[BDS](_ => Bd(0, 0, 0));
      mem := new Word[TXWORDS];
      dma := new Dev9Dma.Driver<DmaShare.Payload<Job>>(Request(DmaShare.Other, 0, 0, []));
      linkValid, ptrStart, ptrEnd, indexStart, indexDma, indexEnd := false, 0, 0, 0, 0, 0;
      wrPtr, moved, acked, sent, published, released := 0, 0, [], [], 0, 0;
      new;
      assert bd[..] == seq(BDS, _ => Bd(0, 0, 0));
    }

    method ComputeFreeSize() returns (free: int)
      requires Shaped()
      ensures free == FreeSize(State())
    {
      free := if ptrStart > ptrEnd then ptrStart - ptrEnd else TXBUFSIZE - (ptrEnd - ptrStart);
    }

    /** A write to the FIFO data register. */
    method WriteData(w: Word)
      requires Shaped()
      modifies this`wrPtr, mem
      ensures State() == WriteWords(old(State()), [w])
    {
      mem[wrPtr / 4] := w;
      wrPtr := (wrPtr + 4) % TXBUFSIZE;
      assert mem[..] == old(mem[..])[old(wrPtr) / 4 := w];
      assert [w][1..] == [];
      assert Poke(old(mem[..]), old(wrPtr), [w]) == Poke(mem[..], wrPtr, []);
      assert Poke(mem[..], wrPtr, []) == mem[..];
      assert bd[..] == old(bd[..]);
    }

    method PreDma(r: Transfer)
      requires Shaped()
      modifies this`wrPtr, this`moved
      ensures State() == SmapTx.PreDma(old(State()), r)
    {
      if r.payload.Own? {
        wrPtr := r.payload.job.ptr;
      }
      moved := 0;
    }

    /** The PIO loop of _smap_dma_dev9_post_dma. */
    method PostDma(r: Transfer)
      requires Shaped() && r.payload.Own?
      modifies this`wrPtr, mem
      ensures State() == WriteWords(old(State()), Tail(r))
    {
      var words := r.payload.job.frame.words;
      var i := BLOCKWORDS * Blocks(r.size);
      ghost var was := State();
      while i < |words|
        invariant WriteWords(State(), if i < |words| then words[i..] else []) == WriteWords(was, Tail(r))
      {
        FirstWordFirst(State(), words[i..]);
        WriteData(words[i]);
        i := i + 1;
      }
    }

    /** _tx_smap_done_callback. */
    method TxDone(tx: Job)
      requires Shaped()
      modifies this`indexEnd, this`acked, this`published, bd
      ensures State() == SmapTx.TxDone(old(State()), tx)
    {
      indexEnd := Next(indexEnd);
      bd[tx.index] := Bd(READY, tx.frame.len, tx.ptr + TXBUFBASE);
      published := published + 1;
      acked := acked + [tx.frame.id];
    }

    /** Makes the callbacks that the DMA queue has asked for. */
    method Serve(calls: seq<Dev9Dma.Callback<DmaShare.Payload<Job>>>)
      requires Shaped()
      modifies this, bd, mem
      ensures State() == Calls(old(State()), calls)
    {
      for i := 0 to |calls|
        invariant Shaped() && Calls(State(), calls[i..]) == Calls(old(State()), calls)
      {
        match calls[i]
        case PreDma(r) => PreDma(r);
        case PostDma(r) => if r.payload.Own? { PostDma(r); }
        case Done(r) => if r.payload.Own? { TxDone(r.payload.job); }
      }
    }

    method DmaTransfer(r: Transfer) returns (rv: int)
      requires Valid()
      requires StepFits(dma.live, Submit(dma.live, r))
      modifies this, bd, mem, dma, dma.tqueue
      ensures Valid()
      ensures State() == SmapTx.DmaTransfer(old(State()), r)
    {
      ghost var s, o := State(), Submit(dma.live, r);
      var n := |dma.callbacks|;
      rv := dma.Transfer(r);
      assert State() == s.(queue := o.queue);
      Serve(dma.callbacks[n..]);
      TraceIsApply(s, o);
    }

    method DmaInterrupt()
      requires Valid()
      requires StepFits(dma.live, Interrupt(dma.live))
      modifies this, bd, mem, dma, dma.tqueue
      ensures Valid()
      ensures State() == SmapTx.DmaInterrupt(old(State()))
    {
      ghost var s, o := State(), Interrupt(dma.live);
      var n := |dma.callbacks|;
      dma.InterruptHandler();
      assert State() == s.(queue := o.queue);
      Serve(dma.callbacks[n..]);
      TraceIsApply(s, o);
    }

    /** SMap_Send. */
    method Send(f: Frame) returns (status: Status)
      requires Valid() && f.addr != 0
      modifies this, bd, mem, dma, dma.tqueue
      ensures Valid()
      ensures status == SendStatus(old(State()), f)
      ensures State() == SmapTx.Send(old(State()), f)
      ensures status != Ok ==> State() == old(State())
    {
      hide SmapTx.DmaTransfer, Submit, StepFits, Settled;
      if !linkValid {
        return Con;
      }
      if f.len > TXMAXSIZE {
        return Err;
      }
      var len := Aligned(f.len);
      var free := ComputeFreeSize();
      if len > free {
        return Full;
      }
      var r := TxTransfer(f, ptrEnd, indexDma);
      Dev9Dma.SingleFits(dma.live, r);
      sent := sent + [f];
      var rv := DmaTransfer(r);
      ptrEnd := (ptrEnd + len) % TXBUFSIZE;
      indexDma := Next(indexDma);
      return Ok;
    }

    /** HandleTXInt. */
    method HandleTxInt() returns (rv: int)
      requires Shaped()
      modifies this, bd
      ensures State() == SmapTx.HandleTxInt(old(State()))
      ensures rv == TxIntResult(old(State()), true)
    {
      hide ReleaseSent, TxIntResult, Release, Settled, SmapTx.HandleTxInt;
      rv := 1;
      TxIntFacts(State(), true);
      while indexStart != indexEnd
        invariant Shaped() && ReleaseSent(State()) == ReleaseSent(old(State()))
        invariant (rv == 1 || rv == 0) && TxIntResult(State(), rv == 1) == TxIntResult(old(State()), true)
        decreases (indexEnd - indexStart) % BDS
      {
        TxIntFacts(State(), rv == 1);
        if bd[indexStart].Error() {
          rv := 0;
        }
        if bd[indexStart].Ready() {
          TxIntEnds(old(State()), State());
          return;
        }
        ReleaseOne();
      }
      TxIntFacts(State(), rv == 1);
      TxIntEnds(old(State()), State());
      if indexStart == indexDma {
        if ptrStart != ptrEnd {
          ptrStart := ptrEnd;
        }
        rv := 2;
      }
    }

    method ReleaseOne()
      requires Shaped()
      modifies this`ptrStart, this`indexStart, this`released, bd
      ensures State() == Release(old(State()))
    {
      var d := indexStart;
      ptrStart := (ptrStart + Aligned(bd[d].length)) % TXBUFSIZE;
      indexStart := Next(indexStart);
      bd[d] := Bd(0, 0, 0);
      released := released + 1;
    }
  }
}
