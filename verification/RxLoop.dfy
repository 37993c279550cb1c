/** The loop of HandleRXInt over the 64 packet buffers: it ends, whatever the DMA queue refuses, because a frame that
    keeps its descriptor keeps its packet buffer too. */
module RxLoop {
  import opened DmaQueue
  import opened BumpRing
  import opened SmapBd
  import opened SmapRx
  import opened RxInvariant
  import P = PbufPool

  /** What the SIF and the EE do at a frame: which SIF transfers are over, the id of the frame's own, should it be sent
      at once, and whether an EE buffer is registered. */
  datatype Sif = Sif(over: nat -> bool, id: nat, registered: bool)

  /** The receiver and the packet buffers. */
  datatype Both = Both(smap: Smap, bufs: P.State)

  /** The transfers in the DMA queue are those that have a packet buffer and those of other clients. */
  predicate Matching(x: Both)
  {
    |x.smap.queue| == |x.bufs.dma| + x.bufs.others
  }

  /** The next frame gets a packet buffer, if it is good. */
  predicate Grants(x: Both, sif: nat -> Sif)
  {
    P.CanAlloc(x.bufs, sif(x.smap.visited).over)
  }

  /** The next frame is delivered and is over within its call. */
  predicate Instantly(s: Smap, granted: bool)
  {
    Delivers(s, granted) && ReturnsAtOnce(s, granted)
  }

  /** What a call of HandleRX does to the packet buffers. */
  function Buffers(x: Both, sif: nat -> Sif): P.State
    requires Matching(x)
  {
    var s, f := x.smap, sif(x.smap.visited);
    if Bad(s.bd[s.rxIndex]) then x.bufs
    else
      var b := P.Receive(x.bufs, f.over);
      if Instantly(s, Grants(x, sif)) then
        assert s.queue == [];
        P.Complete(b, f.id, f.registered)
      else b
  }

  /** A call of HandleRX. */
  function Round(x: Both, sif: nat -> Sif): Both
    requires Matching(x)
  {
    Both(HandleRx(x.smap, Grants(x, sif)), Buffers(x, sif))
  }

  /** The DMA queue goes on having the transfers of the packet buffers, and a buffer is lost exactly if the frame is
      delivered to a full queue, or is over at once and finds no EE buffer. */
  lemma {:induction false} RoundKeeps(x: Both, sif: nat -> Sif)
    requires Matching(x) && P.Owned(x.bufs, [])
    ensures var y, s, g := Round(x, sif), x.smap, Grants(x, sif);
            && Matching(y) && P.Owned(y.bufs, [])
            && (|y.bufs.lost| > |x.bufs.lost| <==>
                  Delivers(s, g)
                  && (|s.queue| == SLOTS - 1 || (Instantly(s, g) && !sif(s.visited).registered)))
  {
    RoundMatches(x, sif);
    var s, f := x.smap, sif(x.smap.visited);
    if !Bad(s.bd[s.rxIndex]) {
      P.StepKeeps(x.bufs, P.Received(f.over));
      var b := P.Receive(x.bufs, f.over);
      if Instantly(s, Grants(x, sif)) { P.CompleteLosesIff(b, f.id, f.registered); }
    }
    hide P.Owned, P.Check, HandleRx, Blocks, Settled;
  }

  lemma {:induction false} RoundMatches(x: Both, sif: nat -> Sif)
    requires Matching(x)
    ensures Matching(Round(x, sif))
  {
    hide HandleRx, Blocks, P.Alloc, P.CanAlloc;
    QueueAfter(x.smap, Grants(x, sif));
    AllocMatches(x.bufs, sif(x.smap.visited).over);
  }

  lemma {:induction false} AllocMatches(s: P.State, over: nat -> bool)
    ensures var t := P.Alloc(s, over); t.dma == s.dma && t.others == s.others && t.lost == s.lost
  {
    hide P.Check;
  }

  lemma {:induction false} QueueAfter(s: Smap, granted: bool)
    ensures |HandleRx(s, granted).queue|
            == if !Delivers(s, granted) || |s.queue| == SLOTS - 1 then |s.queue|
               else if ReturnsAtOnce(s, granted) then 0
               else |s.queue| + 1
  {
    hide Blocks, Settled, Apply;
    if Delivers(s, granted) {
      var t, r := Allotted(s), RxTransfer(s.base, Allotment(s));
      SubmitConserves(t.queue, r);
      SubmitLength(t.queue, r);
      AppliedQueue(t, Submit(t.queue, r));
    }
  }

  lemma {:induction false} SubmitLength(q: Queue, r: Transfer)
    requires r.followUps == []
    ensures |Submit(q, r).queue|
            == if |q| == SLOTS - 1 then |q| else if q == [] && Blocks(r.size) == 0 then 0 else |q| + 1
  {
    if q == [] && Blocks(r.size) == 0 { SettleOne(r); }
  }

  lemma {:induction false} AppliedQueue(s: Smap, o: Outcome<DmaShare.Payload<Job>>)
    requires Settled(o.queue)
    ensures Apply(s, o).queue == o.queue
  {
    CompleteAllQueue(s.(queue := o.queue), o.done);
  }

  lemma {:induction false} CompleteAllQueue(s: Smap, rs: seq<Transfer>)
    ensures CompleteAll(s, rs).queue == s.queue
    decreases |rs|
  {
    if rs != [] { CompleteAllQueue(Complete(s, rs[0]), rs[1..]); }
  }

  // ---------- the loop ----------

  /** n calls of HandleRX. */
  function Loop(x: Both, sif: nat -> Sif, n: nat): (y: Both)
    requires Matching(x)
    ensures Matching(y)
    decreases n
  {
    RoundMatches(x, sif);
    if n == 0 then x else Loop(Round(x, sif), sif, n - 1)
  }

  lemma {:induction false} LoopSplit(x: Both, sif: nat -> Sif, n: nat)
    requires Matching(x)
    ensures Loop(x, sif, n + 1) == Round(Loop(x, sif, n), sif)
    decreases n
  {
    hide Round;
    RoundMatches(x, sif);
    if n > 0 { LoopSplit(Round(x, sif), sif, n - 1); }
  }

  /** For which frames the loop finds a packet buffer. */
  function Pool(x: Both, sif: nat -> Sif): nat -> bool
    requires Matching(x)
  {
    u => u >= x.smap.visited && Grants(Loop(x, sif, u - x.smap.visited), sif)
  }

  /** The loop does to the receiver what its specification says, the packet buffers being found as Pool says. */
  lemma {:induction false} LoopIsRounds(x: Both, sif: nat -> Sif, n: nat)
    requires Matching(x)
    ensures Loop(x, sif, n).smap == Rounds(x.smap, Pool(x, sif), n)
    ensures Loop(x, sif, n).smap.visited == x.smap.visited + n
    decreases n
  {
    hide HandleRx, Grants, Buffers, Loop, Rounds;
    if n == 0 {
      NoRounds(x.smap, Pool(x, sif));
      NoLoop(x, sif);
    } else {
      LoopIsRounds(x, sif, n - 1);
      LoopSplit(x, sif, n - 1);
      RoundsSplit(x.smap, Pool(x, sif), n - 1);
      var y := Loop(x, sif, n - 1);
      HandleRxMoves(y.smap, Grants(y, sif));
    }
  }

  lemma {:induction false} NoLoop(x: Both, sif: nat -> Sif)
    requires Matching(x)
    ensures Loop(x, sif, 0) == x
  {
  }

  /** The loop of HandleRXInt always ends, within 128 calls. */
  lemma {:induction false} LoopEnds(x: Both, sif: nat -> Sif) returns (n: nat)
    requires Matching(x) && x.smap.rxIndex == x.smap.visited % BDS
    ensures Stopped(Loop(x, sif, n).smap) && n <= 2 * BDS
  {
    hide HandleRx, Round, Pool, P.Held, P.Before, Delivers, Ahead;
    n := 0;
    if !Stopped(x.smap) {
      var y, i := Round(x, sif), x.bufs.writeIdx;
      RoundMatches(x, sif);
      var m;
      if ReturnsAtOnce(x.smap, Grants(x, sif)) {
        m := EndsAfterReturn(x, sif);
      } else {
        RoundHolds(x, sif, i);
        m := EndsHolding(y, sif, i);
      }
      n := m + 1;
    }
  }

  /** A buffer that is held ends the loop, because pbuf_alloc never goes past it. */
  lemma {:induction false} EndsHolding(x: Both, sif: nat -> Sif, i: P.Index) returns (n: nat)
    requires Matching(x) && x.smap.rxIndex == x.smap.visited % BDS && P.Held(x.bufs, i)
    ensures Stopped(Loop(x, sif, n).smap) && n <= P.Before(x.bufs, i) + BDS
    decreases P.Before(x.bufs, i)
  {
    hide HandleRx, Round, Pool, P.Held, P.Before, Delivers, Ahead;
    n := 0;
    if !Stopped(x.smap) {
      RoundMatches(x, sif);
      var m;
      if ReturnsAtOnce(x.smap, Grants(x, sif)) {
        m := EndsAfterReturn(x, sif);
      } else {
        RoundHolds(x, sif, i);
        m := EndsHolding(Round(x, sif), sif, i);
      }
      n := m + 1;
    }
  }

  /** A frame that keeps its descriptor keeps its packet buffer. */
  lemma {:induction false} RoundHolds(x: Both, sif: nat -> Sif, i: P.Index)
    requires Matching(x) && x.smap.rxIndex == x.smap.visited % BDS && !ReturnsAtOnce(x.smap, Grants(x, sif))
    ensures var y := Round(x, sif);
            && y.smap.rxIndex == y.smap.visited % BDS
            && P.Held(y.bufs, x.bufs.writeIdx) && P.Before(y.bufs, x.bufs.writeIdx) == P.BUFFERS - 1
            && (P.Held(x.bufs, i) ==> P.Held(y.bufs, i) && P.Before(y.bufs, i) == P.Before(x.bufs, i) - 1)
  {
    hide HandleRx;
    HandleRxMoves(x.smap, Grants(x, sif));
    NextMod(x.smap.visited);
    var over := sif(x.smap.visited).over;
    if P.Held(x.bufs, i) { P.AllocStopsAt(x.bufs, over, i); }
  }

  /** A frame that gives its descriptor back ends the loop a lap later. */
  lemma {:induction false} EndsAfterReturn(x: Both, sif: nat -> Sif) returns (n: nat)
    requires Matching(x) && Matching(Round(x, sif)) && x.smap.rxIndex == x.smap.visited % BDS
    requires ReturnsAtOnce(x.smap, Grants(x, sif))
    ensures Stopped(Loop(Round(x, sif), sif, n).smap) && n < BDS
  {
    hide HandleRx, Loop, Pool, Rounds, Buffers;
    var y := Round(x, sif);
    HandleRxMoves(x.smap, Grants(x, sif));
    NextMod(x.smap.visited);
    n := EndsFrom(y.smap, Pool(y, sif), x.smap.rxIndex);
    LoopIsRounds(y, sif, n);
  }
}
