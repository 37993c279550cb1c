/** The 64 buffers of pbuf.c and who has them: nobody, the request queue, the DMA queue, or the SIF; or they are lost.
    The steps are those of smap_cmd.c, main.c and smap.c that pass buffers on; what the hardware decides is an
    argument. */
module PbufPool {
  import DmaQueue

  const BUFFERS := 64
  const MAX_REQ_CNT := 64

  type Index = x: int | 0 <= x < BUFFERS

  /** A buffer's reference count and SIF transfer id. */
  datatype Buf = Buf(ref: nat, id: nat)

  type Bufs = s: seq<Buf> | |s| == BUFFERS witness seq(BUFFERS, _ => Buf(0, 0))

  /** The buffers, the index to try next, the request queue and the driver's transfers in the DMA queue, in order, with
      the number of those that other clients have in it. The buffers that nobody is going to free are history. */
  datatype State = State(bufs: Bufs, writeIdx: Index, reqs: seq<Index>, dma: seq<Index>, others: nat, lost: seq<Index>)

  function Init(): State
  {
    State(seq(BUFFERS, _ => Buf(0, 0)), 0, [], [], 0, [])
  }

  function Next(i: Index): Index
  {
    (i + 1) % BUFFERS
  }

  // ---------- pbuf.c ----------

  /** pbuf_check_transfers: frees the buffers whose SIF transfer is over. */
  function Check(bufs: Bufs, over: nat -> bool): Bufs
  {
    seq(BUFFERS, i requires 0 <= i < BUFFERS =>
      if bufs[i].ref != 0 && bufs[i].id != 0 && over(bufs[i].id) then Buf(0, 0) else bufs[i])
  }

  predicate CanAlloc(s: State, over: nat -> bool)
  {
    Check(s.bufs, over)[s.writeIdx].ref == 0
  }

  /** pbuf_alloc: the buffer at the write index, or none. */
  function Alloc(s: State, over: nat -> bool): State
  {
    var bufs := Check(s.bufs, over);
    if bufs[s.writeIdx].ref == 0 then s.(bufs := bufs[s.writeIdx := Buf(1, 0)], writeIdx := Next(s.writeIdx))
    else s.(bufs := bufs)
  }

  // ---------- passing buffers on ----------

  /** A buffer goes to the SIF with the given id; without one it is freed (_cmd_transfer_callback and the end of
      SMapLowLevelInput). */
  function ToSif(s: State, i: Index, id: nat): State
  {
    s.(bufs := s.bufs[i := if id == 0 then Buf(0, 0) else s.bufs[i].(id := id)])
  }

  function ToDma(s: State, i: Index): State
  {
    s.(dma := s.dma + [i])
  }

  function Lose(s: State, i: Index): State
  {
    s.(lost := s.lost + [i])
  }

  /** The DMA queue takes one more transfer. */
  predicate Room(s: State)
  {
    |s.dma| + s.others < DmaQueue.SLOTS - 1
  }

  /** smap_dma_transfer. Nobody looks at its result, so a buffer that a full queue refuses is lost. */
  function Give(s: State, i: Index): State
  {
    if Room(s) then ToDma(s, i) else Lose(s, i)
  }

  /** StoreLast, which takes a reference. */
  function Store(s: State, i: Index): State
  {
    s.(reqs := s.reqs + [i], bufs := s.bufs[i := s.bufs[i].(ref := s.bufs[i].ref + 1)])
  }

  /** What SMap_Send does with a frame: gives it to the DMA queue, finds no memory for it, or fails; in the last case
      its owner gets the buffer back with an SIF id, or 0. */
  datatype Sent = Given | Full | Failed(id: nat)

  /** SMapLowLevelOutput. A full request queue leaves the buffer where it is. */
  function Output(s: State, i: Index, sent: Sent): State
  {
    if s.reqs == [] then
      match sent
      case Given => Give(s, i)
      case Full => Store(s, i)
      case Failed(id) => ToSif(s, i, id)
    else if |s.reqs| < MAX_REQ_CNT then Store(s, i)
    else s
  }

  /** One round of SendRequests. */
  function SendFirst(s: State, sent: Sent): State
    requires s.reqs != []
  {
    var t := s.(reqs := s.reqs[1..]);
    match sent
    case Given => Give(t, s.reqs[0])
    case Full => s
    case Failed(id) => ToSif(t, s.reqs[0], id)
  }

  /** The oldest transfer completes. registered is whether a received frame finds an EE buffer. */
  function Complete(s: State, id: nat, registered: bool): State
    requires s.dma != []
  {
    var t := s.(dma := s.dma[1..]);
    if registered then ToSif(t, s.dma[0], id) else Lose(t, s.dma[0])
  }

  /** smap_reset. */
  function Reset(s: State): State
  {
    State(seq(BUFFERS, _ => Buf(0, 0)), s.writeIdx, [], s.dma, s.others, [])
  }

  // ---------- ownership ----------

  predicate Live(s: State, i: Index)
  {
    s.bufs[i].ref != 0
  }

  predicate WithSif(s: State, i: Index)
  {
    Live(s, i) && s.bufs[i].id != 0
  }

  predicate Distinct(xs: seq<Index>)
  {
    forall i, j | 0 <= i < j < |xs| :: xs[i] != xs[j]
  }

  /** How many of request queue, DMA queue, lost and extra have buffer i. */
  function Holders(s: State, extra: seq<Index>, i: Index): nat
  {
    (if i in s.reqs then 1 else 0) + (if i in s.dma then 1 else 0) + (if i in s.lost then 1 else 0)
    + if i in extra then 1 else 0
  }

  /** A buffer that is live and not with the SIF has exactly one holder, once; the others have none. extra is for a
      buffer that is being handled right now. */
  predicate Owned(s: State, extra: seq<Index>)
  {
    && Distinct(s.reqs) && Distinct(s.dma) && Distinct(s.lost) && |extra| <= 1
    && forall i: Index :: Holders(s, extra, i) == if Live(s, i) && !WithSif(s, i) then 1 else 0
  }

  /** Free, queued, in DMA, with the SIF and lost are a partition of the 64 buffers. */
  lemma {:induction false} OneOwner(s: State, i: Index)
    requires Owned(s, [])
    ensures var free, queued, inDma, sif, lost := !Live(s, i), i in s.reqs, i in s.dma, WithSif(s, i), i in s.lost;
            && (free || queued || inDma || sif || lost)
            && !(free && queued) && !(free && inDma) && !(free && sif) && !(free && lost)
            && !(queued && inDma) && !(queued && sif) && !(queued && lost)
            && !(inDma && sif) && !(inDma && lost) && !(sif && lost)
  {
    assert Holders(s, [], i) <= 1;
  }

  lemma {:induction false} Pigeonhole(xs: seq<Index>, n: nat)
    requires Distinct(xs) && n <= BUFFERS && forall i | 0 <= i < |xs| :: xs[i] < n
    ensures |xs| <= n
    decreases n
  {
    if xs != [] {
      assert xs[0] < n;
      if n - 1 in xs {
        var k :| 0 <= k < |xs| && xs[k] == n - 1;
        Pigeonhole(xs[..k] + xs[k + 1..], n - 1);
      } else {
        Pigeonhole(xs, n - 1);
      }
    }
  }

  /** When SMapLowLevelOutput is called, its own buffer is one that the request queue cannot have, so the queue is
      never found full. */
  lemma {:induction false} QueueNeverFull(s: State, i: Index)
    requires Owned(s, [i])
    ensures |s.reqs| < MAX_REQ_CNT
  {
    assert Holders(s, [i], i) <= 1;
    Pigeonhole(s.reqs + [i], BUFFERS);
  }

  /** pbuf_alloc finds a buffer exactly if the one at the write index is free or its SIF transfer is over. Whether or
      not it does, every buffer whose SIF transfer is over is freed, and all others stay as they are. */
  lemma {:induction false} AllocDoes(s: State, over: nat -> bool, i: Index)
    ensures CanAlloc(s, over) <==> !Live(s, s.writeIdx) || (WithSif(s, s.writeIdx) && over(s.bufs[s.writeIdx].id))
    ensures var t, w := Alloc(s, over), s.writeIdx;
            && t.bufs[i] == (if CanAlloc(s, over) && i == w then Buf(1, 0)
                             else if s.bufs[i].ref != 0 && s.bufs[i].id != 0 && over(s.bufs[i].id) then Buf(0, 0)
                             else s.bufs[i])
            && t.writeIdx == (if !CanAlloc(s, over) then w else if w == 63 then 0 else w + 1)
            && t == s.(bufs := t.bufs, writeIdx := t.writeIdx)
  {
  }

  /** No buffer stays with the SIF when its transfer is over. */
  lemma {:induction false} AllocFreesAll(s: State, over: nat -> bool)
    ensures forall i: Index | WithSif(Alloc(s, over), i) :: !over(Alloc(s, over).bufs[i].id)
  {
  }

  /** The buffer that pbuf_alloc returns belonged to nobody, or to an SIF transfer that is over. */
  lemma {:induction false} AllocKeeps(s: State, over: nat -> bool)
    requires Owned(s, [])
    ensures var t := Alloc(s, over);
            if CanAlloc(s, over) then
              && Owned(t, [s.writeIdx])
              && (!Live(s, s.writeIdx) || (WithSif(s, s.writeIdx) && over(s.bufs[s.writeIdx].id)))
            else
              Owned(t, [])
  {
    var t := Alloc(s, over);
    var extra := if CanAlloc(s, over) then [s.writeIdx] else [];
    assert Holders(s, [], s.writeIdx) == if Live(s, s.writeIdx) && !WithSif(s, s.writeIdx) then 1 else 0;
    forall i: Index
      ensures Holders(t, extra, i) == if Live(t, i) && !WithSif(t, i) then 1 else 0
    {
      assert Holders(s, [], i) == if Live(s, i) && !WithSif(s, i) then 1 else 0;
    }
  }

  /** pbuf_alloc fails exactly if the one buffer that it looks at waits, is being transferred, is lost, or is still
      being sent to the EE, however many others are free. */
  lemma {:induction false} AllocFailsIff(s: State, over: nat -> bool)
    requires Owned(s, [])
    ensures var w := s.writeIdx;
            !CanAlloc(s, over) <==>
              || w in s.reqs || w in s.dma || w in s.lost
              || (s.bufs[w].ref != 0 && s.bufs[w].id != 0 && !over(s.bufs[w].id))
  {
    var w := s.writeIdx;
    assert Holders(s, [], w) == if Live(s, w) && !WithSif(s, w) then 1 else 0;
  }

  /** SMapLowLevelOutput finds a new owner for the buffer in every case. */
  lemma {:induction false} OutputKeeps(s: State, x: Index, sent: Sent)
    requires Owned(s, [x])
    ensures Owned(Output(s, x, sent), [])
  {
    QueueNeverFull(s, x);
    var t := Output(s, x, sent);
    assert Holders(s, [x], x) <= 1;
    forall i: Index
      ensures Holders(t, [], i) == if Live(t, i) && !WithSif(t, i) then 1 else 0
    {
      assert Holders(s, [x], i) == if Live(s, i) && !WithSif(s, i) then 1 else 0;
    }
  }

  /** Who gets the buffer of a frame to send: the DMA queue if SMap_Send takes it, unless that is full; the request
      queue, with one reference more, if others wait or the memory is full; and otherwise the SIF, until the transfer
      with the given id is over, or nobody if there is none. */
  lemma {:induction false} OutputDecides(s: State, x: Index, sent: Sent)
    requires |s.reqs| < 64
    ensures var t, direct, b := Output(s, x, sent), s.reqs == [], s.bufs[x];
            && t.dma == s.dma + (if direct && sent.Given? && |s.dma| + s.others < 31 then [x] else [])
            && t.lost == s.lost + (if direct && sent.Given? && |s.dma| + s.others >= 31 then [x] else [])
            && t.reqs == s.reqs + (if direct && !sent.Full? then [] else [x])
            && t.bufs == s.bufs[x := if !direct || sent.Full? then Buf(b.ref + 1, b.id)
                                     else if sent.Given? then b
                                     else if sent.id == 0 then Buf(0, 0)
                                     else Buf(b.ref, sent.id)]
            && t == s.(bufs := t.bufs, reqs := t.reqs, dma := t.dma, lost := t.lost)
  {
  }

  /** The same for the first that waits, which stays where it is if the memory is still full. */
  lemma {:induction false} SendFirstDecides(s: State, sent: Sent)
    requires s.reqs != []
    ensures var t, x := SendFirst(s, sent), s.reqs[0];
            var b := s.bufs[x];
            && t.reqs == (if sent.Full? then s.reqs else s.reqs[1..])
            && t.dma == s.dma + (if sent.Given? && |s.dma| + s.others < 31 then [x] else [])
            && t.lost == s.lost + (if sent.Given? && |s.dma| + s.others >= 31 then [x] else [])
            && t.bufs == s.bufs[x := if !sent.Failed? then b
                                     else if sent.id == 0 then Buf(0, 0)
                                     else Buf(b.ref, sent.id)]
            && t == s.(bufs := t.bufs, reqs := t.reqs, dma := t.dma, lost := t.lost)
  {
  }

  lemma {:induction false} SendFirstKeeps(s: State, sent: Sent)
    requires Owned(s, []) && s.reqs != []
    ensures Owned(SendFirst(s, sent), [])
  {
    var t, x := SendFirst(s, sent), s.reqs[0];
    assert s.reqs == [x] + s.reqs[1..] && x !in s.reqs[1..];
    assert Holders(s, [], x) <= 1;
    forall i: Index
      ensures Holders(t, [], i) == if Live(t, i) && !WithSif(t, i) then 1 else 0
    {
      assert Holders(s, [], i) == if Live(s, i) && !WithSif(s, i) then 1 else 0;
    }
  }

  /** A completed transfer's buffer finds a new owner, and is lost exactly if there is nowhere to send a received
      frame. */
  lemma {:induction false} CompleteLosesIff(s: State, id: nat, registered: bool)
    requires Owned(s, []) && s.dma != []
    ensures var t := Complete(s, id, registered); Owned(t, []) && (s.dma[0] in t.lost <==> !registered)
    ensures var t, x := Complete(s, id, registered), s.dma[0];
            && t.dma == s.dma[1..] && t.reqs == s.reqs
            && t.bufs == s.bufs[x := if !registered then s.bufs[x]
                                     else if id == 0 then Buf(0, 0)
                                     else Buf(s.bufs[x].ref, id)]
  {
    var t, x := Complete(s, id, registered), s.dma[0];
    assert s.dma == [x] + s.dma[1..] && x !in s.dma[1..];
    assert Holders(s, [], x) == if Live(s, x) && !WithSif(s, x) then 1 else 0;
    forall i: Index
      ensures Holders(t, [], i) == if Live(t, i) && !WithSif(t, i) then 1 else 0
    {
      assert Holders(s, [], i) == if Live(s, i) && !WithSif(s, i) then 1 else 0;
    }
  }

  /** A reset keeps ownership in order exactly if no transfer is under way. */
  lemma {:induction false} ResetKeepsIff(s: State)
    requires Owned(s, [])
    ensures Owned(Reset(s), []) <==> s.dma == []
    ensures Reset(s).reqs == [] && forall i: Index :: !Live(Reset(s), i)
  {
    var t := Reset(s);
    if s.dma != [] {
      assert Holders(t, [], s.dma[0]) == 1 && !Live(t, s.dma[0]);
    }
  }

  // ---------- runs ----------

  /** A frame to send, a frame received, a round of SendRequests, a completed transfer, which finds an EE buffer
      registered or not, a reset, or traffic of other clients of the DMA queue. over says which SIF transfers are
      over. */
  datatype Event =
    | Command(over: nat -> bool, sent: Sent)
    | Received(over: nat -> bool)
    | Drain(sent: Sent)
    | Completed(id: nat, registered: bool)
    | Cleared
    | Elsewhere(others: nat)

  predicate Enabled(s: State, e: Event)
  {
    match e
    case Command(_, _) => true
    case Received(_) => true
    case Drain(_) => s.reqs != []
    case Completed(_, _) => s.dma != []
    case Cleared => s.dma == []
    case Elsewhere(n) => |s.dma| + n < DmaQueue.SLOTS
  }

  /** HandleRX with a frame to deliver. */
  function Receive(s: State, over: nat -> bool): State
  {
    if CanAlloc(s, over) then Give(Alloc(s, over), s.writeIdx) else Alloc(s, over)
  }

  function Step(s: State, e: Event): State
    requires Enabled(s, e)
  {
    match e
    case Command(over, sent) => if CanAlloc(s, over) then Output(Alloc(s, over), s.writeIdx, sent) else Alloc(s, over)
    case Received(over) => Receive(s, over)
    case Drain(sent) => SendFirst(s, sent)
    case Completed(id, registered) => Complete(s, id, registered)
    case Cleared => Reset(s)
    case Elsewhere(n) => s.(others := n)
  }

  lemma {:induction false} GiveKeeps(s: State, x: Index)
    requires Owned(s, [x])
    ensures Owned(Give(s, x), [])
  {
    assert Holders(s, [x], x) <= 1;
    var t := Give(s, x);
    forall i: Index
      ensures Holders(t, [], i) == if Live(t, i) && !WithSif(t, i) then 1 else 0
    {
      assert Holders(s, [x], i) == if Live(s, i) && !WithSif(s, i) then 1 else 0;
    }
  }

  lemma {:induction false} StepKeeps(s: State, e: Event)
    requires Owned(s, []) && Enabled(s, e)
    ensures Owned(Step(s, e), [])
  {
    hide Owned, Output, Alloc, CanAlloc, SendFirst, Complete, Reset, Give;
    match e
    case Command(over, sent) =>
      AllocKeeps(s, over);
      if CanAlloc(s, over) { OutputKeeps(Alloc(s, over), s.writeIdx, sent); }
    case Received(over) =>
      AllocKeeps(s, over);
      if CanAlloc(s, over) { GiveKeeps(Alloc(s, over), s.writeIdx); }
    case Drain(sent) => SendFirstKeeps(s, sent);
    case Completed(id, registered) => CompleteLosesIff(s, id, registered);
    case Cleared => ResetKeepsIff(s);
    case Elsewhere(n) => SameOwners(s, n);
  }

  lemma {:induction false} SameOwners(s: State, n: nat)
    requires Owned(s, [])
    ensures Owned(s.(others := n), [])
  {
    var t := s.(others := n);
    forall i: Index
      ensures Holders(t, [], i) == if Live(t, i) && !WithSif(t, i) then 1 else 0
    {
      assert Holders(s, [], i) == if Live(s, i) && !WithSif(s, i) then 1 else 0;
    }
  }

  predicate Run(s: State, events: seq<Event>, t: State)
    decreases |events|
  {
    if events == [] then s == t else Enabled(s, events[0]) && Run(Step(s, events[0]), events[1..], t)
  }

  /** In every reachable state every buffer has exactly one owner, the DMA queue has no more than 31 transfers, and a
      buffer just allocated to send a frame finds the request queue with room for it. */
  lemma {:induction false} BuffersAlwaysOwned(events: seq<Event>, t: State, over: nat -> bool)
    requires Run(Init(), events, t)
    ensures Owned(t, [])
    ensures |t.dma| + t.others < DmaQueue.SLOTS
    ensures CanAlloc(t, over) ==> |Alloc(t, over).reqs| < MAX_REQ_CNT
  {
    RunKeeps(Init(), events, t);
    hide Owned;
    AllocKeeps(t, over);
    if CanAlloc(t, over) { QueueNeverFull(Alloc(t, over), t.writeIdx); }
  }

  lemma {:induction false} RunKeeps(s: State, events: seq<Event>, t: State)
    requires Owned(s, []) && |s.dma| + s.others < DmaQueue.SLOTS && Run(s, events, t)
    ensures Owned(t, []) && |t.dma| + t.others < DmaQueue.SLOTS
    decreases |events|
  {
    hide Owned, Step, Enabled;
    if events != [] {
      StepKeeps(s, events[0]);
      StepFits(s, events[0]);
      RunKeeps(Step(s, events[0]), events[1..], t);
    }
  }

  lemma {:induction false} StepFits(s: State, e: Event)
    requires Enabled(s, e) && |s.dma| + s.others < DmaQueue.SLOTS
    ensures var t := Step(s, e); |t.dma| + t.others < DmaQueue.SLOTS
  {
    hide Check;
  }

  // ---------- lost buffers ----------

  /** The event gives a buffer to the DMA queue. */
  predicate Gives(s: State, e: Event)
  {
    match e
    case Command(over, sent) => CanAlloc(s, over) && s.reqs == [] && sent == Given
    case Received(over) => CanAlloc(s, over)
    case Drain(sent) => sent == Given
    case _ => false
  }

  /** The DMA queue is full when the event gives it a buffer, or a received frame has nowhere to go. */
  predicate Loses(s: State, e: Event)
  {
    (Gives(s, e) && |s.dma| + s.others >= DmaQueue.SLOTS - 1) || (e.Completed? && !e.registered)
  }

  /** The events since the last reset that lose a buffer, and n if there was no reset. */
  function Losses(s: State, events: seq<Event>, n: nat): nat
    decreases |events|
  {
    if events == [] || !Enabled(s, events[0]) then n
    else
      var e := events[0];
      Losses(Step(s, e), events[1..], if e.Cleared? then 0 else if Loses(s, e) then n + 1 else n)
  }

  /** After every run, as many different buffers are lost as events since the last reset found the DMA queue full, or
      no EE buffer. */
  lemma {:induction false} LostAreLosses(events: seq<Event>, t: State)
    requires Run(Init(), events, t)
    ensures |t.lost| == Losses(Init(), events, 0) && Distinct(t.lost)
  {
    RunKeeps(Init(), events, t);
    RunLoses(Init(), events, t);
  }

  lemma {:induction false} RunLoses(s: State, events: seq<Event>, t: State)
    requires Run(s, events, t)
    ensures |t.lost| == Losses(s, events, |s.lost|)
    decreases |events|
  {
    hide Step, Enabled, Loses;
    if events != [] {
      StepLoses(s, events[0]);
      RunLoses(Step(s, events[0]), events[1..], t);
    }
  }

  lemma {:induction false} StepLoses(s: State, e: Event)
    requires Enabled(s, e)
    ensures |Step(s, e).lost| == if e.Cleared? then 0 else if Loses(s, e) then |s.lost| + 1 else |s.lost|
  {
    hide Check;
  }

  // ---------- what a lost buffer does ----------

  /** A buffer that pbuf_check_transfers does not free. */
  predicate Held(s: State, i: Index)
  {
    Live(s, i) && !WithSif(s, i)
  }

  /** The allocations that can still be made before buffer i is next. */
  function Before(s: State, i: Index): nat
  {
    if s.writeIdx <= i then i - s.writeIdx else i - s.writeIdx + BUFFERS
  }

  /** pbuf_alloc never goes past a buffer that is held. */
  lemma {:induction false} AllocStopsAt(s: State, over: nat -> bool, i: Index)
    requires Held(s, i)
    ensures Held(Alloc(s, over), i)
    ensures Before(Alloc(s, over), i) == Before(s, i) - if CanAlloc(s, over) then 1 else 0
    ensures CanAlloc(s, over) ==> s.writeIdx != i && Held(Alloc(s, over), s.writeIdx)
    ensures CanAlloc(s, over) ==> Before(Alloc(s, over), s.writeIdx) == BUFFERS - 1
  {
  }

  predicate Allocates(s: State, e: Event)
  {
    (e.Command? || e.Received?) && CanAlloc(s, e.over)
  }

  /** How often pbuf_alloc finds a buffer. */
  function Allocations(s: State, events: seq<Event>): nat
    decreases |events|
  {
    if events == [] || !Enabled(s, events[0]) then 0
    else (if Allocates(s, events[0]) then 1 else 0) + Allocations(Step(s, events[0]), events[1..])
  }

  /** One lost buffer stops the driver for good: until the next reset it stays lost, and pbuf_alloc succeeds no more
      often than there are buffers before it, which is 63 times at the most. */
  lemma {:induction false} LostStopsPool(s: State, events: seq<Event>, t: State, i: Index)
    requires Owned(s, []) && i in s.lost && Run(s, events, t) && Cleared !in events
    ensures i in t.lost
    ensures Allocations(s, events) == Before(s, i) - Before(t, i) <= BUFFERS - 1
    decreases |events|
  {
    hide Owned, Step, Enabled, Before, Allocates;
    if events != [] {
      StepKeeps(s, events[0]);
      LostStays(s, events[0], i);
      LostStopsPool(Step(s, events[0]), events[1..], t, i);
    }
    BeforeBound(s, i);
  }

  lemma {:induction false} BeforeBound(s: State, i: Index)
    ensures Before(s, i) < BUFFERS
  {
  }

  lemma {:induction false} LostStays(s: State, e: Event, i: Index)
    requires Owned(s, []) && i in s.lost && Enabled(s, e) && e != Cleared
    ensures var t := Step(s, e); i in t.lost && Before(t, i) == Before(s, i) - if Allocates(s, e) then 1 else 0
  {
    hide Check, CanAlloc, Distinct;
    assert Holders(s, [], i) == if Live(s, i) && !WithSif(s, i) then 1 else 0;
    if e.Command? || e.Received? { AllocStopsAt(s, e.over, i); }
  }

  // ---------- the array itself ----------

  class Pool {
    const buffers: array<Buf>
    var writeIdx: Index

    constructor ()
      ensures buffers.Length == BUFFERS && buffers[..] == Init().bufs && writeIdx == 0 && fresh(buffers)
    {
      buffers := new Buf[BUFFERS](_ => Buf(0, 0));
      writeIdx := 0;
      new;
      assert buffers[..] == seq(BUFFERS, _ => Buf(0, 0));
    }

    /** pbuf_free. */
    method Free(i: Index)
      requires buffers.Length == BUFFERS
      modifies buffers
      ensures buffers[..] == old(buffers[..])[i := Buf(0, 0)]
    {
      buffers[i] := Buf(0, 0);
    }

    method CheckTransfers(over: nat -> bool)
      requires buffers.Length == BUFFERS
      modifies buffers
      ensures buffers[..] == Check(old(buffers[..]), over)
      ensures forall i | 0 <= i < BUFFERS ::
                buffers[i] == if old(buffers[i]).ref != 0 && old(buffers[i]).id != 0 && over(old(buffers[i]).id)
                              then Buf(0, 0) else old(buffers[i])
    {
      ghost var was: Bufs := buffers[..];
      for i := 0 to BUFFERS
        invariant forall j | 0 <= j < i :: buffers[j] == Check(was, over)[j]
        invariant forall j | i <= j < BUFFERS :: buffers[j] == was[j]
      {
        if buffers[i].ref != 0 && buffers[i].id != 0 {
          if over(buffers[i].id) {
            Free(i);
          }
        }
      }
    }

    /** pbuf_alloc, which returns the index of the buffer, or -1. */
    method Allocate(over: nat -> bool) returns (found: int)
      requires buffers.Length == BUFFERS
      modifies this, buffers
      ensures State(buffers[..], writeIdx, [], [], 0, [])
              == Alloc(State(old(buffers[..]), old(writeIdx), [], [], 0, []), over)
      ensures found
              == if CanAlloc(State(old(buffers[..]), old(writeIdx), [], [], 0, []), over) then old(writeIdx) else -1
    {
      var i := writeIdx;
      CheckTransfers(over);
      if buffers[i].ref == 0 {
        writeIdx := (writeIdx + 1) % BUFFERS;
        buffers[i] := Buf(1, 0);
        return i;
      }
      return -1;
    }

    /** pbuf_reset. */
    method Clear()
      requires buffers.Length == BUFFERS
      modifies buffers
      ensures buffers[..] == Init().bufs
    {
      for i := 0 to BUFFERS
        invariant forall j | 0 <= j < i :: buffers[j] == Buf(0, 0)
      {
        Free(i);
      }
      assert buffers[..] == seq(BUFFERS, _ => Buf(0, 0));
    }
  }
}
