/** main.c as it changes its globals: the ring of waiting requests in front of the transmitter. */
module SmapMain {
  import opened DmaQueue
  import opened SmapBd
  import opened SmapTx
  import opened SmapDriver
  import TxInvariant
  import TxPipeline

  predicate Addressed(q: seq<Frame>)
  {
    forall i | 0 <= i < |q| :: q[i].addr != 0
  }

  lemma {:induction false} AddressedAppend(q: seq<Frame>, f: Frame)
    requires Addressed(q) && f.addr != 0
    ensures Addressed(q + [f])
  {
  }

  lemma {:induction false} RestAddressed(q: seq<Frame>)
    requires Addressed(q) && q != []
    ensures q[0].addr != 0 && Addressed(q[1..])
  {
  }

  lemma {:induction false} OtherSlot(first: nat, i: nat, j: nat)
    requires i < j < i + MAX_REQ_CNT
    ensures (first + i) % MAX_REQ_CNT != (first + j) % MAX_REQ_CNT
  {
  }

  lemma {:induction false} NextSlot(first: nat, i: nat)
    ensures ((first + 1) % MAX_REQ_CNT + i) % MAX_REQ_CNT == (first + (i + 1)) % MAX_REQ_CNT
  {
  }

  /** The request queue of main.c: a ring of frames, its first index and its count. */
  class RequestQueue {
    const ring: array<Frame>
    var first: nat
    var count: nat

    ghost predicate Valid()
      reads this
    {
      ring.Length == MAX_REQ_CNT && first < MAX_REQ_CNT && count <= MAX_REQ_CNT
    }

    ghost function Contents(): (q: seq<Frame>)
      requires Valid()
      reads this, ring
      ensures |q| == count
    {
      seq(count, i requires 0 <= i < count && Valid() reads this, ring => ring[(first + i) % MAX_REQ_CNT])
    }

    constructor (blank: Frame)
      ensures Valid() && Contents() == [] && fresh(ring)
    {
      ring := new Frame[MAX_REQ_CNT](_ => blank);
      first, count := 0, 0;
    }

    method StoreLast(f: Frame)
      requires Valid() && count < MAX_REQ_CNT
      modifies this`count, ring
      ensures Valid() && Contents() == old(Contents()) + [f]
    {
      ghost var was := Contents();
      ring[(first + count) % MAX_REQ_CNT] := f;
      count := count + 1;
      forall i | 0 <= i < count - 1
        ensures Contents()[i] == was[i]
      {
        OtherSlot(first, i, count - 1);
      }
    }

    method GetFirst() returns (f: Frame)
      requires Valid() && count > 0
      ensures f == Contents()[0]
    {
      f := ring[first];
    }

    /** tx_queue_reset. */
    method Empty()
      requires Valid()
      modifies this
      ensures Valid() && Contents() == []
    {
      first, count := 0, 0;
    }

    method PopFirst()
      requires Valid() && count > 0
      modifies this
      ensures Valid() && Contents() == old(Contents())[1..]
    {
      ghost var was := Contents();
      ghost var oldest := first;
      first := (first + 1) % MAX_REQ_CNT;
      count := count - 1;
      forall i | 0 <= i < count
        ensures Contents()[i] == was[i + 1]
      {
        NextSlot(oldest, i);
      }
    }
  }

  class LowLevel {
    const tx: Transmitter
    const queue: RequestQueue
    var timeoutCnt: nat
    var submitted: nat
    var failed: seq<nat>
    var refused: seq<nat>
    ghost var dropped: seq<nat>

    ghost predicate Valid()
      reads this, tx, tx.dma, tx.dma.tqueue, queue, queue.ring
    {
      && tx.Valid() && queue.Valid()
      && Addressed(queue.Contents())
    }

    ghost function State(): TxPipeline.Pipe
      requires tx.Shaped() && queue.Valid()
      reads this, tx, tx.bd, tx.mem, tx.dma, queue, queue.ring
    {
      TxPipeline.Pipe(tx.State(), queue.Contents(), timeoutCnt, submitted, failed, refused, dropped)
    }

    constructor (tx: Transmitter, blank: Frame)
      requires tx.Valid()
      ensures Valid() && this.tx == tx
      ensures State() == TxPipeline.Pipe(tx.State(), [], 0, 0, [], [], [])
    {
      this.tx := tx;
      queue := new RequestQueue(blank);
      timeoutCnt, submitted, failed, refused, dropped := 0, 0, [], [], [];
    }

    /** StoreLast. */
    method Wait(f: Frame)
      requires Valid() && f.addr != 0 && queue.count < MAX_REQ_CNT
      modifies queue`count, queue.ring
      ensures Valid()
      ensures State() == old(State()).(reqs := old(State()).reqs + [f])
    {
      AddressedAppend(queue.Contents(), f);
      hide Addressed, Settled;
      queue.StoreLast(f);
    }

    /** SMap_Send. */
    method SendNow(f: Frame) returns (status: Status)
      requires Valid() && f.addr != 0
      modifies tx, tx.bd, tx.mem, tx.dma, tx.dma.tqueue
      ensures Valid()
      ensures status == SendStatus(old(State()).smap, f)
      ensures State() == old(State()).(smap := SmapTx.Send(old(State()).smap, f))
      ensures status != Ok ==> State() == old(State())
    {
      hide Addressed, Settled, SmapTx.Send, SendStatus;
      status := tx.Send(f);
    }

    /** The part of SMapLowLevelOutput for a frame that finds no request waiting. */
    method Direct(f: Frame) returns (status: Status)
      requires Valid() && f.addr != 0 && queue.count == 0
      modifies this`failed, this`timeoutCnt, tx, tx.bd, tx.mem, tx.dma, tx.dma.tqueue, queue`count, queue.ring
      ensures Valid()
      ensures State() == TxPipeline.Direct(old(State()), f)
      ensures status == if SendStatus(old(State()).smap, f) == Full then Ok else SendStatus(old(State()).smap, f)
    {
      hide SmapTx.Send, SendStatus, Settled, Addressed;
      status := SendNow(f);
      if status == Full {
        Wait(f);
        timeoutCnt := 0;
        status := Ok;
      } else if status != Ok {
        failed := failed + [f.id];
      }
    }

    /** SMapLowLevelOutput. */
    method Output(f: Frame) returns (status: Status)
      requires Valid() && f.addr != 0
      modifies this, tx, tx.bd, tx.mem, tx.dma, tx.dma.tqueue, queue, queue.ring
      ensures Valid()
      ensures State() == TxPipeline.Output(old(State()), f) && status == TxPipeline.OutputStatus(old(State()), f)
    {
      hide SmapTx.Send, SendStatus, Settled, Addressed, TxPipeline.Direct;
      submitted := submitted + 1;
      if queue.count == 0 {
        status := Direct(f);
      } else if queue.count < MAX_REQ_CNT {
        Wait(f);
        status := Ok;
      } else {
        refused := refused + [f.id];
        status := Full;
      }
    }

    /** One round of the loop of SendRequests. */
    method SendOne() returns (again: bool)
      requires Valid() && queue.count > 0
      modifies this, tx, tx.bd, tx.mem, tx.dma, tx.dma.tqueue, queue
      ensures Valid()
      ensures again ==> queue.count < old(queue.count)
      ensures again <==> SendStatus(old(State()).smap, old(State()).reqs[0]) != Full
      ensures State() == if again then TxPipeline.SendFirst(old(State())) else old(State()).(timeoutCnt := 0)
    {
      hide SmapTx.Send, SendStatus, Settled, Addressed;
      var f := queue.GetFirst();
      ghost var waiting := queue.Contents();
      assert f.addr != 0 && Addressed(waiting[1..]) by { RestAddressed(waiting); }
      var status := SendNow(f);
      if status == Full {
        timeoutCnt := 0;
        return false;
      }
      if status != Ok {
        failed := failed + [f.id];
      }
      queue.PopFirst();
      return true;
    }

    method SendRequests()
      requires Valid()
      modifies this, tx, tx.bd, tx.mem, tx.dma, tx.dma.tqueue, queue
      ensures Valid()
      ensures State() == TxPipeline.SendRequests(old(State()))
    {
      hide SmapTx.Send, SendStatus, TxPipeline.SendFirst, Settled, Addressed;
      while queue.count > 0
        invariant Valid()
        invariant TxPipeline.SendRequests(State()) == TxPipeline.SendRequests(old(State()))
        decreases queue.count
      {
        var again := SendOne();
        if !again { return; }
      }
    }

    /** smap_reset, as far as the request queue goes. */
    method Reset()
      requires Valid()
      modifies this, queue
      ensures Valid()
      ensures State() == TxPipeline.Reset(old(State()))
    {
      dropped := dropped + TxInvariant.Ids(queue.Contents());
      queue.Empty();
      timeoutCnt := 0;
    }

    method Timer()
      requires Valid()
      modifies this, tx, tx.bd, tx.mem, tx.dma, tx.dma.tqueue, queue
      ensures Valid()
      ensures State() == TxPipeline.Timer(old(State()))
    {
      hide Settled, Addressed, TxPipeline.SendRequests;
      if queue.count <= 0 {
        timeoutCnt := 0;
      } else {
        timeoutCnt := timeoutCnt + TIMER_INTERVAL;
        if timeoutCnt >= TIMEOUT {
          SendRequests();
          timeoutCnt := 0;
        }
      }
    }

    /** The transmit half of SMapInterrupt. */
    method TxInterrupt()
      requires Valid()
      modifies this, tx, tx.bd, tx.mem, tx.dma, tx.dma.tqueue, queue
      ensures Valid()
      ensures State() == TxPipeline.Step(old(State()), TxPipeline.TxIrq)
      ensures queue.count == 0 || SendStatus(State().smap, State().reqs[0]) == Full
    {
      hide SendStatus, TxPipeline.SendRequests, Settled, Addressed;
      var rv := tx.HandleTxInt();
      TxPipeline.SendsUntilFull(State());
      SendRequests();
    }
  }
}
