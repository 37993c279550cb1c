/** Every descriptor that the chip fills comes back to it exactly once, and frames are passed on in ring order. */
module RxInvariant {
  import opened DmaQueue
  import opened DmaShare
  import opened BumpRing
  import opened SmapBd
  import opened SmapRx

  const MAXFRAME := 1520 // RXMAXSIZE in whole words

  /** The last frame below n, counted from the first ever, that was stored in descriptor d; negative if none. */
  function Last(n: nat, d: Index): int
  {
    if d < n % BDS then n - n % BDS + d else n - n % BDS + d - BDS
  }

  lemma {:induction false} NextMod(n: nat)
    ensures Next(n % BDS) == (n + 1) % BDS
    ensures n + 1 - (n + 1) % BDS == if n % BDS == BDS - 1 then n + 1 else n - n % BDS
  {
  }

  lemma {:induction false} LastRange(n: nat, d: Index)
    ensures n - BDS <= Last(n, d) < n
    ensures Last(n, d) >= 0 ==> Last(n, d) % BDS == d
    ensures Last(n, n % BDS) == n - BDS
  {
  }

  lemma {:induction false} LastOf(n: nat, u: nat)
    requires u < n <= u + BDS
    ensures Last(n, u % BDS) == u
  {
  }

  lemma {:induction false} LastFacts(n: nat, u: nat, d: Index)
    ensures n - BDS <= Last(n, d) < n
    ensures n <= u + BDS && u < n && u % BDS == d ==> Last(n, d) == u
    ensures Last(n, d) >= 0 ==> Last(n, d) % BDS == d
    ensures Last(n + 1, d) == if d == n % BDS then n else Last(n, d)
    ensures Last(n, n % BDS) == n - BDS
    ensures Next(n % BDS) == (n + 1) % BDS
  {
    LastRange(n, d);
    NextMod(n);
    if n <= u + BDS && u < n && u % BDS == d {
      LastOf(n, u);
      hide Last;
    }
  }

  /** The receiver's transfers in the queue are for visited frames among the last 64, in ring order. */
  predicate Pending(s: Smap, rs: seq<Transfer>)
  {
    && (forall i | 0 <= i < |rs| ::
          && rs[i].payload.Own?
          && var job := rs[i].payload.job;
             && s.filled <= job.number + BDS && job.number < s.visited && job.index == job.number % BDS
             && rs[i].size == Aligned(job.len) && rs[i].addr == s.base + job.at)
    && (forall i, j | 0 <= i < j < |rs| :: rs[i].payload.job.number < rs[j].payload.job.number)
  }

  predicate Waits(rs: seq<Transfer>, u: int)
  {
    exists i :: 0 <= i < |rs| && rs[i].payload.Own? && rs[i].payload.job.number == u
  }

  /** A descriptor is empty unless its last frame is unvisited or still being transferred. */
  predicate Accounted(s: Smap, rs: seq<Transfer>)
  {
    && s.visited <= s.filled <= s.visited + BDS && s.rxIndex == s.visited % BDS
    && s.decs + |rs| == s.visited
    && forall d: Index :: s.bd[d].Empty() <==> Last(s.filled, d) < s.visited && !Waits(rs, Last(s.filled, d))
  }

  /** What was passed on came in ring order, and comes before what is being transferred. */
  predicate InOrder(s: Smap, rs: seq<Transfer>)
  {
    && (forall i | 0 <= i < |s.inputs| :: s.inputs[i].number < s.visited)
    && (forall i, j | 0 <= i < j < |s.inputs| :: s.inputs[i].number < s.inputs[j].number)
    && (forall i, j | 0 <= i < |s.inputs| && 0 <= j < |rs| && rs[j].payload.Own? ::
         s.inputs[i].number < rs[j].payload.job.number)
  }

  /** The pieces of the receive buffer, and the pointer, which a frame without a buffer may have sent back. */
  predicate Buffered(s: Smap)
  {
    && HandedOut(RX_BUFFER_SIZE, MAXFRAME, 0, s.pieces)
    && var ptr := Ptr(0, s.pieces, |s.pieces|);
       s.dataPtr == ptr || (s.dataPtr == 0 && RX_BUFFER_SIZE - ptr < MAXFRAME)
  }

  predicate Core(s: Smap, rs: seq<Transfer>)
  {
    var mine := Share(rs + s.queue);
    Pending(s, mine) && Accounted(s, mine) && InOrder(s, mine) && Buffered(s)
  }

  predicate Inv(s: Smap)
  {
    Core(s, []) && Legal(s.queue)
  }

  lemma {:induction false} CompleteKeeps(s: Smap, rs: seq<Transfer>)
    requires Core(s, rs) && rs != []
    ensures Core(Complete(s, rs[0]), rs[1..])
  {
    hide HandedOut, Pending, Accounted, InOrder;
    var all := rs + s.queue;
    assert all[0] == rs[0] && all[1..] == rs[1..] + s.queue;
    if rs[0].payload.Own? {
      assert Share(all)[1..] == Share(all[1..]);
      FirstReturns(s, Share(all));
    } else {
      assert Share(all) == Share(all[1..]);
    }
  }

  /** The first transfer completes and its descriptor becomes empty. */
  lemma {:induction false} FirstReturns(s: Smap, mine: seq<Transfer>)
    requires Pending(s, mine) && Accounted(s, mine) && InOrder(s, mine) && mine != []
    ensures var t := Complete(s, mine[0]);
            Pending(t, mine[1..]) && Accounted(t, mine[1..]) && InOrder(t, mine[1..])
  {
    hide Pending, Accounted, InOrder, Complete;
    FirstPends(s, mine);
    FirstAccounts(s, mine);
  }

  lemma {:induction false} FirstPends(s: Smap, mine: seq<Transfer>)
    requires Pending(s, mine) && InOrder(s, mine) && mine != []
    ensures var t := Complete(s, mine[0]); Pending(t, mine[1..]) && InOrder(t, mine[1..])
  {
  }

  lemma {:induction false} FirstAccounts(s: Smap, mine: seq<Transfer>)
    requires Pending(s, mine) && Accounted(s, mine) && mine != []
    ensures Accounted(Complete(s, mine[0]), mine[1..])
  {
    hide Last, Waits;
    var t, u := Complete(s, mine[0]), mine[0].payload.job.number;
    forall d: Index
      ensures t.bd[d].Empty() <==> Last(t.filled, d) < t.visited && !Waits(mine[1..], Last(t.filled, d))
    {
      LastFacts(s.filled, u, d);
      WaitsRest(s, mine, Last(s.filled, d));
    }
  }

  lemma {:induction false} WaitsRest(s: Smap, mine: seq<Transfer>, u: int)
    requires Pending(s, mine) && mine != []
    ensures Waits(mine[1..], u) <==> Waits(mine, u) && u != mine[0].payload.job.number
  {
    if Waits(mine, u) && u != mine[0].payload.job.number {
      var i :| 0 <= i < |mine| && mine[i].payload.Own? && mine[i].payload.job.number == u;
      assert mine[1..][i - 1] == mine[i];
    }
  }

  predicate SameRing(s: Smap, t: Smap)
  {
    && t.base == s.base && t.rxIndex == s.rxIndex && t.dataPtr == s.dataPtr && t.queue == s.queue
    && t.filled == s.filled && t.visited == s.visited && t.pieces == s.pieces
  }

  lemma {:induction false} CompleteAllKeeps(s: Smap, rs: seq<Transfer>)
    requires Core(s, rs)
    ensures Core(CompleteAll(s, rs), []) && SameRing(s, CompleteAll(s, rs))
    decreases |rs|
  {
    hide Core;
    if rs != [] {
      CompleteKeeps(s, rs);
      CompleteAllKeeps(Complete(s, rs[0]), rs[1..]);
    }
  }

  // ---------- steps of the DMA queue ----------

  lemma {:induction false} QueueIrrelevant(s: Smap, q: Queue, rs: seq<Transfer>)
    ensures Pending(s.(queue := q), rs) == Pending(s, rs) && Accounted(s.(queue := q), rs) == Accounted(s, rs)
    ensures InOrder(s.(queue := q), rs) == InOrder(s, rs) && Buffered(s.(queue := q)) == Buffered(s)
  {
  }

  lemma {:induction false} ApplyKeeps(s: Smap, o: Outcome<Payload<Job>>, mine: seq<Transfer>)
    requires Settled(o.queue) && Legal(o.queue) && Share(o.done + o.queue) == mine
    requires Pending(s, mine) && Accounted(s, mine) && InOrder(s, mine) && Buffered(s)
    ensures Inv(Apply(s, o)) && SameRing(s.(queue := o.queue), Apply(s, o))
  {
    hide Pending, Accounted, InOrder, Buffered, Settled;
    QueueIrrelevant(s, o.queue, mine);
    CompleteAllKeeps(s.(queue := o.queue), o.done);
  }

  lemma {:induction false} DmaInterruptKeeps(s: Smap)
    requires Inv(s)
    ensures Inv(DmaInterrupt(s)) && SameRing(s.(queue := DmaInterrupt(s).queue), DmaInterrupt(s))
  {
    hide Pending, Accounted, InOrder, Buffered, Apply, Legal;
    InterruptConserves(s.queue);
    InterruptIsForeign(s.queue);
    assert [] + s.queue == s.queue;
    ApplyKeeps(s, Interrupt(s.queue), Share(s.queue));
  }

  lemma {:induction false} DmaTransferKeeps(s: Smap, r: Transfer, mine: seq<Transfer>)
    requires Legal(s.queue) && Legal([r]) && |s.queue| < SLOTS - 1
    requires mine == Share(s.queue) + Share([r])
    requires Pending(s, mine) && Accounted(s, mine) && InOrder(s, mine) && Buffered(s)
    ensures Inv(DmaTransfer(s, r)) && SameRing(s.(queue := DmaTransfer(s, r).queue), DmaTransfer(s, r))
  {
    hide Pending, Accounted, InOrder, Buffered, Apply, Legal;
    SubmitConserves(s.queue, r);
    SubmitIsForeign(s.queue, r);
    ApplyKeeps(s, Submit(s.queue, r), mine);
  }

  lemma {:induction false} ForeignTransferKeeps(s: Smap, r: Transfer)
    requires Inv(s) && Foreign([r])
    ensures Inv(DmaTransfer(s, r)) && SameRing(s.(queue := DmaTransfer(s, r).queue), DmaTransfer(s, r))
  {
    hide Pending, Accounted, InOrder, Buffered, Legal;
    assert [] + s.queue == s.queue;
    if |s.queue| < SLOTS - 1 {
      hide DmaTransfer;
      ForeignIsLegal(r);
      DmaTransferKeeps(s, r, Share(s.queue));
    } else {
      SubmitConserves(s.queue, r);
    }
  }

  // ---------- the chip ----------

  lemma {:induction false} FillKeeps(s: Smap, bd: Bd)
    requires Inv(s) && s.bd[s.filled % BDS].Empty() && !bd.Empty()
    ensures Inv(Fill(s, bd))
  {
    hide Buffered, Legal, Pending, Accounted, InOrder, Share;
    assert [] + s.queue == s.queue;
    var mine, t := Share(s.queue), Fill(s, bd);
    FillAccounts(s, bd, mine);
    FillPends(s, bd, mine);
    BufferedIgnores(s, t);
  }

  lemma {:induction false} FillPends(s: Smap, bd: Bd, mine: seq<Transfer>)
    requires Accounted(s, mine) && Pending(s, mine) && InOrder(s, mine) && s.bd[s.filled % BDS].Empty()
    ensures Pending(Fill(s, bd), mine) && InOrder(Fill(s, bd), mine)
  {
    LastRange(s.filled, s.filled % BDS);
    hide Last;
    assert !Waits(mine, s.filled - BDS);
    assert forall i | 0 <= i < |mine| :: mine[i].payload.job.number != s.filled - BDS;
  }

  lemma {:induction false} BufferedIgnores(s: Smap, t: Smap)
    requires t.pieces == s.pieces && t.dataPtr == s.dataPtr
    ensures Buffered(t) == Buffered(s)
  {
  }

  lemma {:induction false} FillAccounts(s: Smap, bd: Bd, mine: seq<Transfer>)
    requires Accounted(s, mine) && Pending(s, mine) && s.bd[s.filled % BDS].Empty() && !bd.Empty()
    ensures Accounted(Fill(s, bd), mine)
  {
    var t := Fill(s, bd);
    LastFacts(s.filled, 0, s.filled % BDS);
    forall d: Index
      ensures t.bd[d].Empty() <==> Last(t.filled, d) < t.visited && !Waits(mine, Last(t.filled, d))
    {
      LastFacts(s.filled, 0, d);
    }
  }

  // ---------- the driver ----------

  /** The chip's next descriptor is empty. This is what makes HandleRX stop after the last filled one. */
  predicate NextFree(s: Smap)
  {
    s.bd[s.filled % BDS].Empty()
  }

  /** The driver finds a filled descriptor exactly while there is an unvisited frame. */
  lemma {:induction false} FilledIffUnvisited(s: Smap)
    requires Inv(s) && NextFree(s)
    ensures s.bd[s.rxIndex].Empty() <==> s.visited == s.filled
  {
    LastFacts(s.filled, s.visited, s.rxIndex);
  }

  /** The frame is dropped: its descriptor goes back to the chip at once. */
  lemma {:induction false} DropKeeps(s: Smap, dataPtr: nat)
    requires Inv(s) && s.visited < s.filled
    requires dataPtr == s.dataPtr || (dataPtr == 0 && RX_BUFFER_SIZE - s.dataPtr < MAXFRAME)
    ensures Inv(Visit(Return(s.(dataPtr := dataPtr), s.rxIndex)))
  {
    hide Buffered, Legal, Pending, Accounted, InOrder, Share;
    assert [] + s.queue == s.queue;
    var t, mine := Visit(Return(s.(dataPtr := dataPtr), s.rxIndex)), Share(s.queue);
    DropAccounts(s, t, mine);
    DropPends(s, t, mine);
    DropKeepsBuffer(s, t);
  }

  lemma {:induction false} DropPends(s: Smap, t: Smap, mine: seq<Transfer>)
    requires Pending(s, mine) && InOrder(s, mine)
    requires t.filled == s.filled && t.visited == s.visited + 1 && t.inputs == s.inputs && t.base == s.base
    ensures Pending(t, mine) && InOrder(t, mine)
  {
  }

  lemma {:induction false} DropKeepsBuffer(s: Smap, t: Smap)
    requires Buffered(s) && t.pieces == s.pieces
    requires t.dataPtr == s.dataPtr || (t.dataPtr == 0 && RX_BUFFER_SIZE - s.dataPtr < MAXFRAME)
    ensures Buffered(t)
  {
    hide HandedOut;
  }

  lemma {:induction false} DropAccounts(s: Smap, t: Smap, mine: seq<Transfer>)
    requires Accounted(s, mine) && Pending(s, mine) && s.visited < s.filled
    requires t == Visit(Return(s, s.rxIndex)).(dataPtr := t.dataPtr)
    ensures Accounted(t, mine)
  {
    LastFacts(s.visited, s.visited, s.rxIndex);
    forall d: Index
      ensures t.bd[d].Empty() <==> Last(t.filled, d) < t.visited && !Waits(mine, Last(t.filled, d))
    {
      LastFacts(s.filled, s.visited, d);
    }
  }

  /** The frame gets a piece of the buffer; its transfer is still to be submitted. */
  lemma {:induction false} AllotKeeps(s: Smap)
    requires Inv(s) && s.visited < s.filled && !Bad(s.bd[s.rxIndex])
    ensures var t, r := Allotted(s), RxTransfer(s.base, Allotment(s));
            var mine := Share(s.queue) + [r];
            && Pending(t, mine) && Accounted(t, mine) && InOrder(t, mine) && Buffered(t)
            && Legal(s.queue) && Legal([r]) && Share([r]) == [r]
  {
    hide Pending, Accounted, InOrder, Buffered, Share, Legal;
    var t, r := Allotted(s), RxTransfer(s.base, Allotment(s));
    var n := Aligned(s.bd[s.rxIndex].length);
    var at := Place(RX_BUFFER_SIZE, s.dataPtr, n);
    var mine := Share(s.queue);
    assert [] + s.queue == s.queue;
    OwnIsLegal(r);
    DeliverAccounts(s, t, mine, r);
    DeliverPends(s, t, mine, r);
    OnePieceMore(s, n);
    BufferedIgnores(s.(dataPtr := at + n, pieces := s.pieces + [Piece(at, n, n)]), t);
  }

  /** The frame gets a transfer, which the DMA queue accepts. */
  lemma {:induction false} DeliverKeeps(s: Smap)
    requires Inv(s) && s.visited < s.filled && !Bad(s.bd[s.rxIndex]) && |s.queue| < SLOTS - 1
    ensures var t := HandleRx(s, true); Inv(t) && t.visited == s.visited + 1 && t.filled == s.filled
  {
    hide Pending, Accounted, InOrder, Buffered, Share, Legal, DmaTransfer, Inv;
    AllotKeeps(s);
    var r := RxTransfer(s.base, Allotment(s));
    DmaTransferKeeps(Allotted(s), r, Share(s.queue) + [r]);
  }

  lemma {:induction false} DeliverAccounts(s: Smap, t: Smap, mine: seq<Transfer>, r: Transfer)
    requires Accounted(s, mine) && s.visited < s.filled
    requires t == Visit(s).(dataPtr := t.dataPtr, pieces := t.pieces)
    requires r.payload.Own? && r.payload.job.number == s.visited && r.payload.job.index == s.rxIndex
    ensures Accounted(t, mine + [r])
  {
    hide Waits;
    LastFacts(s.visited, s.visited, s.rxIndex);
    forall d: Index
      ensures t.bd[d].Empty() <==> Last(t.filled, d) < t.visited && !Waits(mine + [r], Last(t.filled, d))
    {
      LastFacts(s.filled, s.visited, d);
      WaitsAppend(mine, r, Last(t.filled, d));
    }
  }

  lemma {:induction false} DeliverPends(s: Smap, t: Smap, mine: seq<Transfer>, r: Transfer)
    requires Accounted(s, mine) && Pending(s, mine) && InOrder(s, mine) && s.visited < s.filled
    requires t == Visit(s).(dataPtr := t.dataPtr, pieces := t.pieces)
    requires r.payload.Own? && r.payload.job.number == s.visited && r.payload.job.index == s.rxIndex
    requires r.size == Aligned(r.payload.job.len) && r.addr == s.base + r.payload.job.at
    ensures Pending(t, mine + [r]) && InOrder(t, mine + [r])
  {
    hide Waits, Last;
  }

  lemma {:induction false} WaitsAppend(rs: seq<Transfer>, r: Transfer, u: int)
    requires r.payload.Own?
    ensures Waits(rs + [r], u) <==> Waits(rs, u) || r.payload.job.number == u
  {
    var all := rs + [r];
    assert all[|rs|] == r;
    if Waits(rs, u) {
      var i :| 0 <= i < |rs| && rs[i].payload.Own? && rs[i].payload.job.number == u;
      assert all[i] == rs[i];
    }
  }

  lemma {:induction false} OnePieceMore(s: Smap, n: nat)
    requires Buffered(s) && n <= MAXFRAME
    ensures var at := Place(RX_BUFFER_SIZE, s.dataPtr, n);
            Buffered(s.(dataPtr := at + n, pieces := s.pieces + [Piece(at, n, n)]))
  {
    hide HandedOut;
    OneMore(RX_BUFFER_SIZE, MAXFRAME, 0, s.pieces, Piece(Place(RX_BUFFER_SIZE, s.dataPtr, n), n, n));
  }

  /** The frame that HandleRX finds is given to the DMA queue. */
  predicate Delivers(s: Smap, granted: bool)
  {
    !Bad(s.bd[s.rxIndex]) && granted
  }

  /** HandleRX with a filled descriptor visits it and keeps the invariant, if the DMA queue takes what it is given. */
  lemma {:induction false} HandleRxKeeps(s: Smap, granted: bool)
    requires Inv(s) && s.visited < s.filled && (Delivers(s, granted) ==> |s.queue| < SLOTS - 1)
    ensures var t := HandleRx(s, granted); Inv(t) && t.visited == s.visited + 1 && t.filled == s.filled
  {
    hide Inv, DmaTransfer;
    var bd := s.bd[s.rxIndex];
    if Bad(bd) {
      DropKeeps(s, s.dataPtr);
    } else if !granted {
      DropKeeps(s, Place(RX_BUFFER_SIZE, s.dataPtr, Aligned(bd.length)));
    } else {
      DeliverKeeps(s);
    }
  }

  // ---------- HandleRXInt ----------

  /** n calls of HandleRX; pool says for which frames there is a buffer. */
  function Rounds(s: Smap, pool: nat -> bool, n: nat): Smap
    decreases n
  {
    if n == 0 then s else Rounds(HandleRx(s, pool(s.visited)), pool, n - 1)
  }

  lemma {:induction false} NoRounds(s: Smap, pool: nat -> bool)
    ensures Rounds(s, pool, 0) == s
  {
  }

  function Unvisited(s: Smap): nat
  {
    if s.visited < s.filled then s.filled - s.visited else 0
  }

  /** In each of n rounds the DMA queue takes what it is given. */
  predicate RoomForEach(s: Smap, pool: nat -> bool, n: nat)
    decreases n
  {
    n > 0 ==> (Delivers(s, pool(s.visited)) ==> |s.queue| < SLOTS - 1)
              && RoomForEach(HandleRx(s, pool(s.visited)), pool, n - 1)
  }

  lemma {:induction false} RoundsKeep(s: Smap, pool: nat -> bool, n: nat)
    requires Inv(s) && n <= Unvisited(s) && RoomForEach(s, pool, n)
    ensures var t := Rounds(s, pool, n); Inv(t) && t.visited == s.visited + n && t.filled == s.filled
    decreases n
  {
    hide Inv, HandleRx, Delivers;
    if n > 0 {
      HandleRxKeeps(s, pool(s.visited));
      RoundsKeep(HandleRx(s, pool(s.visited)), pool, n - 1);
    }
  }

  // ---------- what one round leaves alone ----------

  /** A transfer that is given to the queue completes no other of the receiver's. */
  lemma {:induction false} SubmitCompletes(q: Queue, r: Transfer)
    requires r.followUps == []
    ensures Submit(q, r).done == if q == [] && Blocks(r.size) == 0 then [r] else []
  {
    if q == [] && Blocks(r.size) == 0 { SettleOne(r); }
  }

  /** HandleRX moves on by one and changes no descriptor but the one it is at. */
  lemma {:induction false} HandleRxMoves(s: Smap, granted: bool)
    ensures var t := HandleRx(s, granted);
            && t.rxIndex == Next(s.rxIndex) && t.visited == s.visited + 1 && t.filled == s.filled && t.base == s.base
            && (forall d: Index | d != s.rxIndex :: t.bd[d] == s.bd[d])
            && (Delivers(s, granted) && !(s.queue == [] && Blocks(Aligned(s.bd[s.rxIndex].length)) == 0)
               ==> t.bd == s.bd)
            && (t.bd[s.rxIndex].Empty() <==>
                  s.bd[s.rxIndex].Empty() || !Delivers(s, granted)
                  || (s.queue == [] && Blocks(Aligned(s.bd[s.rxIndex].length)) == 0))
  {
    hide Blocks, Settled;
    var bd := s.bd[s.rxIndex];
    if Delivers(s, granted) {
      var t, r := Allotted(s), RxTransfer(s.base, Allotment(s));
      SubmitConserves(t.queue, r);
      SubmitCompletes(t.queue, r);
      var o := Submit(t.queue, r);
      hide Submit;
      if o.done == [r] {
        assert [r][1..] == [];
        assert CompleteAll(t.(queue := o.queue), [r]) == CompleteAll(Complete(t.(queue := o.queue), r), []);
      }
    }
  }

  /** How many descriptors lie from that of frame v up to d, going round. */
  function Ahead(v: nat, d: Index): Index
  {
    if v % BDS <= d then d - v % BDS else d - v % BDS + BDS
  }

  lemma {:induction false} AheadFacts(v: nat, d: Index)
    ensures Ahead(v, d) == 0 <==> d == v % BDS
    ensures Ahead(v + 1, d) == if Ahead(v, d) == 0 then BDS - 1 else Ahead(v, d) - 1
    ensures Next(v % BDS) == (v + 1) % BDS
  {
    NextMod(v);
  }

  lemma {:induction false} AheadOfLater(v: nat, n: nat)
    requires n < BDS
    ensures Ahead(v, (v + n) % BDS) == n
    decreases n
  {
    if n > 0 {
      AheadOfLater(v + 1, n - 1);
      AheadFacts(v, (v + n) % BDS);
    }
  }

  /** Rounds change only the descriptors they visit. */
  lemma {:induction false} RoundsLeave(s: Smap, pool: nat -> bool, n: nat, d: Index)
    requires s.rxIndex == s.visited % BDS && n <= Ahead(s.visited, d)
    ensures var t := Rounds(s, pool, n);
            t.bd[d] == s.bd[d] && t.rxIndex == t.visited % BDS && t.visited == s.visited + n
    decreases n
  {
    hide HandleRx, Delivers, Ahead;
    if n > 0 {
      HandleRxMoves(s, pool(s.visited));
      AheadFacts(s.visited, d);
      RoundsLeave(HandleRx(s, pool(s.visited)), pool, n - 1, d);
    }
  }

  /** HandleRX would find an empty descriptor, which ends the loop. */
  predicate Stopped(s: Smap)
  {
    s.bd[s.rxIndex].Empty()
  }

  // ---------- when the interrupt ends with everything visited once ----------

  /** The first unvisited frame's descriptor comes back within its round. */
  predicate ReturnsAtOnce(s: Smap, granted: bool)
  {
    !Delivers(s, granted) || (s.queue == [] && Blocks(Aligned(s.bd[s.rxIndex].length)) == 0)
  }

  /** Either the chip's next descriptor is free, or all 64 hold unvisited frames and the first one's comes back at
      once. */
  predicate StopsInTime(s: Smap, pool: nat -> bool)
  {
    NextFree(s) || (s.filled == s.visited + BDS && ReturnsAtOnce(s, pool(s.visited)))
  }

  lemma {:induction false} InvMeans(s: Smap)
    requires Inv(s)
    ensures s.visited <= s.filled <= s.visited + BDS && s.rxIndex == s.visited % BDS
    ensures s.decs + |Share(s.queue)| == s.visited && Legal(s.queue)
    ensures s.visited < s.filled ==> !s.bd[s.rxIndex].Empty()
    ensures s.filled == s.visited + BDS ==> s.filled % BDS == s.rxIndex
  {
    assert [] + s.queue == s.queue;
    LastFacts(s.filled, s.visited, s.rxIndex);
    hide Pending, InOrder, Buffered, Legal, Last;
  }

  /** Less than a lap of rounds leaves the descriptor that it leads to alone. */
  lemma {:induction false} AfterRounds(s: Smap, pool: nat -> bool, n: nat, d: Index)
    requires s.rxIndex == s.visited % BDS && n < BDS && d == (s.visited + n) % BDS
    ensures var t := Rounds(s, pool, n); t.rxIndex == d && t.bd[d] == s.bd[d]
  {
    AheadOfLater(s.visited, n);
    hide Ahead, Rounds;
    RoundsLeave(s, pool, n, d);
  }

  /** After a whole lap the first one decides. */
  lemma {:induction false} AfterLap(s: Smap, pool: nat -> bool)
    requires s.rxIndex == s.visited % BDS && !s.bd[s.rxIndex].Empty()
    ensures var t, d := Rounds(s, pool, BDS), s.rxIndex;
            t.rxIndex == d && (t.bd[d].Empty() <==> ReturnsAtOnce(s, pool(s.visited)))
  {
    var t := HandleRx(s, pool(s.visited));
    hide HandleRx, Delivers, ReturnsAtOnce;
    assert Rounds(s, pool, BDS) == Rounds(t, pool, BDS - 1);
    hide Rounds;
    ReturnsIff(s, pool(s.visited));
    LapIndex(s.visited);
    AfterRounds(t, pool, BDS - 1, s.rxIndex);
  }

  lemma {:induction false} LapIndex(v: nat)
    ensures (v + 1 + (BDS - 1)) % BDS == v % BDS == (v + BDS) % BDS
  {
  }

  lemma {:induction false} StopsAfterRounds(s: Smap, pool: nat -> bool)
    requires s.rxIndex == s.visited % BDS && s.visited <= s.filled < s.visited + BDS
    ensures Stopped(Rounds(s, pool, Unvisited(s))) <==> NextFree(s)
  {
    hide Rounds;
    AfterRounds(s, pool, Unvisited(s), s.filled % BDS);
  }

  lemma {:induction false} StopsAfterLap(s: Smap, pool: nat -> bool)
    requires s.rxIndex == s.visited % BDS == s.filled % BDS && s.filled == s.visited + BDS && !s.bd[s.rxIndex].Empty()
    ensures !NextFree(s) && (Stopped(Rounds(s, pool, Unvisited(s))) <==> ReturnsAtOnce(s, pool(s.visited)))
  {
    hide Rounds, ReturnsAtOnce;
    AfterLap(s, pool);
  }

  /** Having visited every frame once, the loop stops exactly if it has StopsInTime. */
  lemma {:induction false} StopsIff(s: Smap, pool: nat -> bool)
    requires Inv(s)
    ensures Stopped(Rounds(s, pool, Unvisited(s))) <==> StopsInTime(s, pool)
  {
    InvMeans(s);
    hide Inv, Rounds, ReturnsAtOnce, Legal, Share, NextFree, Stopped;
    if s.filled < s.visited + BDS {
      StopsAfterRounds(s, pool);
    } else {
      StopsAfterLap(s, pool);
    }
  }

  lemma {:induction false} ReturnsIff(s: Smap, granted: bool)
    requires s.rxIndex == s.visited % BDS && !s.bd[s.rxIndex].Empty()
    ensures var t := HandleRx(s, granted);
            t.bd[s.rxIndex].Empty() <==> ReturnsAtOnce(s, granted)
    ensures var t := HandleRx(s, granted); t.rxIndex == t.visited % BDS && t.visited == s.visited + 1
  {
    HandleRxMoves(s, granted);
    AheadFacts(s.visited, s.rxIndex);
    hide HandleRx, Delivers, Blocks;
  }

  /** The interrupt ends, having visited every frame that the chip had stored exactly once. */
  lemma {:induction false} RxIntVisitsAll(s: Smap, pool: nat -> bool)
    requires Inv(s) && RoomForEach(s, pool, Unvisited(s)) && StopsInTime(s, pool)
    ensures var t := Rounds(s, pool, Unvisited(s));
            && Inv(t) && t.visited == t.filled == s.filled && Stopped(t)
            && forall i | 0 <= i < Unvisited(s) :: !Stopped(Rounds(s, pool, i))
  {
    hide Inv, StopsInTime, Rounds, RoomForEach;
    InvMeans(s);
    RoundsKeep(s, pool, Unvisited(s));
    StopsIff(s, pool);
    forall i | 0 <= i < Unvisited(s)
      ensures !Stopped(Rounds(s, pool, i))
    {
      UnvisitedFound(s, pool, i);
    }
  }

  // ---------- a full DMA queue ----------

  /** Visited frames that have neither a FRAME_DEC nor a transfer that will write it. */
  function Owed(s: Smap): int
  {
    s.visited - s.decs - |Share(s.queue)|
  }

  lemma {:induction false} CompleteAllPays(s: Smap, rs: seq<Transfer>)
    ensures CompleteAll(s, rs).decs == s.decs + |Share(rs)|
    ensures SameRing(s, CompleteAll(s, rs))
    decreases |rs|
  {
    if rs != [] { CompleteAllPays(Complete(s, rs[0]), rs[1..]); }
  }

  lemma {:induction false} RoundOwes(s: Smap, granted: bool)
    requires Legal(s.queue)
    ensures var t := HandleRx(s, granted);
            Legal(t.queue) && Owed(t) == Owed(s) + if Delivers(s, granted) && |s.queue| == SLOTS - 1 then 1 else 0
  {
    hide Share, Legal, Blocks;
    var bd := s.bd[s.rxIndex];
    if Delivers(s, granted) {
      var t, r := Allotted(s), RxTransfer(s.base, Allotment(s));
      SubmitConserves(t.queue, r);
      SubmitShares(t.queue, r);
      var o := Submit(t.queue, r);
      CompleteAllPays(t.(queue := o.queue), o.done);
      hide Submit, CompleteAll;
    }
  }

  /** Every visited frame has its FRAME_DEC, or a transfer that will write it, exactly if the DMA queue took every frame
      it was given. */
  lemma {:induction false} NothingOwedIff(s: Smap, pool: nat -> bool, n: nat)
    requires Legal(s.queue)
    ensures Owed(Rounds(s, pool, n)) >= Owed(s)
    ensures Owed(Rounds(s, pool, n)) == Owed(s) <==> RoomForEach(s, pool, n)
    decreases n
  {
    hide HandleRx, Delivers, Owed, Legal;
    if n > 0 {
      RoundOwes(s, pool(s.visited));
      NothingOwedIff(HandleRx(s, pool(s.visited)), pool, n - 1);
    }
  }

  /** An interrupt keeps the invariant and stops with everything visited once exactly under the two conditions. */
  lemma {:induction false} RxIntKeepsIff(s: Smap, pool: nat -> bool)
    requires Inv(s)
    ensures var t := Rounds(s, pool, Unvisited(s));
            Inv(t) && Stopped(t) <==> RoomForEach(s, pool, Unvisited(s)) && StopsInTime(s, pool)
  {
    InvMeans(s);
    NothingOwedIff(s, pool, Unvisited(s));
    hide Inv, HandleRx, StopsInTime;
    if RoomForEach(s, pool, Unvisited(s)) {
      StopsIff(s, pool);
      RoundsKeep(s, pool, Unvisited(s));
    } else {
      var t := Rounds(s, pool, Unvisited(s));
      if Inv(t) { InvMeans(t); }
    }
  }

  // ---------- the loop always ends ----------

  lemma {:induction false} ShareIsShorter(rs: seq<Transfer>)
    ensures |Share(rs)| <= |rs|
    decreases |rs|
  {
    if rs != [] { ShareIsShorter(rs[1..]); }
  }

  /** A list in which all numbers below n occur has at least n elements. */
  lemma {:induction false} AllOccur(xs: seq<nat>, n: nat)
    requires forall d | 0 <= d < n :: d in xs
    ensures |xs| >= n
    decreases n
  {
    if n > 0 {
      assert n - 1 in xs;
      var k :| 0 <= k < |xs| && xs[k] == n - 1;
      var ys := xs[..k] + xs[k + 1..];
      forall d | 0 <= d < n - 1
        ensures d in ys
      {
        assert d in xs;
        var i :| 0 <= i < |xs| && xs[i] == d;
        assert ys[if i < k then i else i - 1] == d;
      }
      AllOccur(ys, n - 1);
    }
  }

  /** Once every frame is visited some descriptor is empty: only 31 transfers can be queued. */
  lemma {:induction false} SomeEmpty(s: Smap)
    requires Inv(s) && s.visited == s.filled
    ensures exists d: Index :: s.bd[d].Empty()
  {
    var mine := Share(s.queue);
    ShareIsShorter(s.queue);
    if forall d: Index :: !s.bd[d].Empty() {
      assert [] + s.queue == s.queue;
      hide Share, HandedOut, InOrder, Buffered, Legal;
      var indices: seq<nat> := seq(|mine|, i requires 0 <= i < |mine| => mine[i].payload.job.index);
      forall d: nat | 0 <= d < BDS
        ensures d in indices
      {
        LastFacts(s.filled, 0, d);
        hide Last;
        assert Waits(mine, Last(s.filled, d));
        var i :| 0 <= i < |mine| && mine[i].payload.Own? && mine[i].payload.job.number == Last(s.filled, d);
        assert indices[i] == d;
      }
      AllOccur(indices, BDS);
    }
  }

  /** A round brings the driver nearer to an empty descriptor, and leaves it empty. */
  lemma {:induction false} RoundApproaches(s: Smap, granted: bool, e: Index)
    requires s.rxIndex == s.visited % BDS && s.bd[e].Empty() && !Stopped(s)
    ensures var t := HandleRx(s, granted);
            t.rxIndex == t.visited % BDS && t.bd[e].Empty() && Ahead(t.visited, e) < Ahead(s.visited, e)
  {
    HandleRxMoves(s, granted);
    AheadFacts(s.visited, e);
    hide HandleRx, Ahead;
  }

  ghost predicate Ends(s: Smap, pool: nat -> bool)
  {
    exists n :: Stopped(Rounds(s, pool, n))
  }

  lemma {:induction false} EndsFrom(s: Smap, pool: nat -> bool, e: Index) returns (n: nat)
    requires s.rxIndex == s.visited % BDS && s.bd[e].Empty()
    ensures Stopped(Rounds(s, pool, n)) && n <= Ahead(s.visited, e)
    decreases Ahead(s.visited, e)
  {
    hide HandleRx, Ahead;
    if Stopped(s) {
      n := 0;
    } else {
      RoundApproaches(s, pool(s.visited), e);
      var m := EndsFrom(HandleRx(s, pool(s.visited)), pool, e);
      n := m + 1;
    }
  }

  lemma {:induction false} RoundsAdd(s: Smap, pool: nat -> bool, m: nat, n: nat)
    ensures Rounds(s, pool, m + n) == Rounds(Rounds(s, pool, m), pool, n)
    decreases m
  {
    hide HandleRx;
    if m > 0 { RoundsAdd(HandleRx(s, pool(s.visited)), pool, m - 1, n); }
  }

  /** The loop ends if there is an empty descriptor, or if the DMA queue takes every frame it is given. */
  lemma {:induction false} EndsIf(s: Smap, pool: nat -> bool)
    requires Inv(s) && (RoomForEach(s, pool, Unvisited(s)) || exists e: Index :: s.bd[e].Empty())
    ensures Ends(s, pool)
  {
    hide Inv, RoomForEach, Rounds, Stopped;
    InvMeans(s);
    if e: Index :| s.bd[e].Empty() {
      var n := EndsFrom(s, pool, e);
    } else {
      var t := Rounds(s, pool, Unvisited(s));
      RoundsKeep(s, pool, Unvisited(s));
      InvMeans(t);
      SomeEmpty(t);
      var e: Index :| t.bd[e].Empty();
      var n := EndsFrom(t, pool, e);
      RoundsAdd(s, pool, Unvisited(s), n);
    }
  }

  lemma {:induction false} UnvisitedFound(s: Smap, pool: nat -> bool, i: nat)
    requires Inv(s) && i < Unvisited(s)
    ensures !Stopped(Rounds(s, pool, i))
  {
    hide Inv, Rounds;
    InvMeans(s);
    AfterRounds(s, pool, i, (s.visited + i) % BDS);
    UnvisitedIsFull(s, s.visited + i);
  }

  lemma {:induction false} UnvisitedIsFull(s: Smap, u: nat)
    requires Inv(s) && s.visited <= u < s.filled
    ensures !s.bd[u % BDS].Empty()
  {
    hide Last, Pending, InOrder, Buffered, Legal, Share;
    LastOf(s.filled, u);
  }

  /** The calls that find a frame are as many as there are unvisited frames, exactly if the loop stops in time; else
      they are more. */
  lemma {:induction false} RoundsOfLoop(s: Smap, pool: nat -> bool, n: nat)
    requires Inv(s) && Stopped(Rounds(s, pool, n)) && forall i | 0 <= i < n :: !Stopped(Rounds(s, pool, i))
    ensures n >= Unvisited(s) && (n == Unvisited(s) <==> StopsInTime(s, pool))
  {
    hide Inv, Rounds, Stopped, StopsInTime;
    StopsIff(s, pool);
    if n < Unvisited(s) { UnvisitedFound(s, pool, n); }
  }

  // ---------- handling a frame twice ----------

  /** What a further round does when the loop has not stopped in time. The descriptor is that of a frame whose transfer
      is still queued. Either the frame gets a second transfer, or its descriptor is given back while the first is
      still to come; in both cases one FRAME_DEC more is written, or to be written, than there were frames. */
  lemma {:induction false} SecondHandling(s: Smap, granted: bool)
    requires Inv(s) && s.visited == s.filled && !Stopped(s)
    requires Delivers(s, granted) ==> |s.queue| < SLOTS - 1
    ensures var t, mine := HandleRx(s, granted), Share(s.queue);
            && (exists i | 0 <= i < |mine| :: mine[i].payload.Own? && mine[i].payload.job.index == s.rxIndex)
            && t.decs + |Share(t.queue)| == t.filled + 1
            && (!Delivers(s, granted) ==> t.queue == s.queue && t.bd[s.rxIndex].Empty())
            && (Delivers(s, granted) ==>
                  t.queue == s.queue + [RxTransfer(s.base, Allotment(s))])
  {
    InvMeans(s);
    StillWaits(s);
    RoundOwes(s, granted);
    HandleRxMoves(s, granted);
    if Delivers(s, granted) { DeliveredIsQueued(s); }
    hide Inv, Bad;
  }

  lemma {:induction false} StillWaits(s: Smap)
    requires Inv(s) && s.visited == s.filled && !Stopped(s)
    ensures s.queue != [] && var mine := Share(s.queue);
            exists i | 0 <= i < |mine| :: mine[i].payload.Own? && mine[i].payload.job.index == s.rxIndex
  {
    assert [] + s.queue == s.queue;
    LastFacts(s.filled, 0, s.rxIndex);
    hide HandedOut, InOrder, Buffered, Legal, Last;
    var u := Last(s.filled, s.rxIndex);
    assert Waits(Share(s.queue), u);
    var i :| 0 <= i < |Share(s.queue)| && Share(s.queue)[i].payload.Own? && Share(s.queue)[i].payload.job.number == u;
    assert Share(s.queue)[i].payload.job.index == s.rxIndex;
  }

  lemma {:induction false} DeliveredIsQueued(s: Smap)
    requires s.queue != [] && |s.queue| < SLOTS - 1 && !Bad(s.bd[s.rxIndex])
    ensures HandleRx(s, true).queue == s.queue + [RxTransfer(s.base, Allotment(s))]
  {
    hide Settled;
  }

  lemma {:induction false} RoundsSplit(s: Smap, pool: nat -> bool, n: nat)
    ensures Rounds(s, pool, n + 1) == var t := Rounds(s, pool, n); HandleRx(t, pool(t.visited))
    decreases n
  {
    hide HandleRx;
    if n > 0 { RoundsSplit(HandleRx(s, pool(s.visited)), pool, n - 1); }
  }

  /** Rounds over bad frames give nothing to the DMA queue. */
  lemma {:induction false} BadRounds(s: Smap, pool: nat -> bool, n: nat)
    requires s.rxIndex == s.visited % BDS && n < BDS
    requires forall d: Index | Ahead(s.visited, d) < n :: Bad(s.bd[d])
    ensures RoomForEach(s, pool, n) && Rounds(s, pool, n).queue == s.queue
    decreases n
  {
    hide Bad, Ahead;
    if n > 0 {
      var t := HandleRx(s, pool(s.visited));
      HandleRxMoves(s, pool(s.visited));
      AheadFacts(s.visited, s.rxIndex);
      assert t.queue == s.queue;
      hide HandleRx;
      forall d: Index | Ahead(t.visited, d) < n - 1
        ensures Bad(t.bd[d])
      {
        AheadFacts(s.visited, d);
      }
      BadRounds(t, pool, n - 1);
    }
  }

  // ---------- runs ----------

  /** The chip stores a frame, an interrupt of the chip, one of the DMA engine, another client's transfer. */
  datatype Event =
    | Stored(bd: Bd)
    | RxIrq(pool: nat -> bool)
    | DmaIrq
    | Foreigner(r: Transfer)

  predicate Enabled(s: Smap, e: Event)
  {
    match e
    case Stored(bd) => NextFree(s) && !bd.Empty()
    case RxIrq(pool) => RoomForEach(s, pool, Unvisited(s)) && StopsInTime(s, pool)
    case DmaIrq => true
    case Foreigner(r) => Foreign([r])
  }

  function Happen(s: Smap, e: Event): Smap
  {
    match e
    case Stored(bd) => Fill(s, bd)
    case RxIrq(pool) => Rounds(s, pool, Unvisited(s))
    case DmaIrq => DmaInterrupt(s)
    case Foreigner(r) => DmaTransfer(s, r)
  }

  predicate Run(s: Smap, events: seq<Event>, t: Smap)
    decreases |events|
  {
    if events == [] then s == t else Enabled(s, events[0]) && Run(Happen(s, events[0]), events[1..], t)
  }

  lemma {:induction false} RunSnoc(s: Smap, events: seq<Event>, t: Smap, e: Event)
    requires Run(s, events, t) && Enabled(t, e)
    ensures Run(s, events + [e], Happen(t, e))
    decreases |events|
  {
    hide Enabled, Happen;
    if events == [] {
      assert [e][1..] == [];
    } else {
      RunSnoc(Happen(s, events[0]), events[1..], t, e);
      assert (events + [e])[1..] == events[1..] + [e];
    }
  }

  lemma {:induction false} Nothing(u: int)
    ensures HandedOut(RX_BUFFER_SIZE, MAXFRAME, 0, []) && Legal<Job>([]) && Share<Job>([]) == [] && !Waits([], u)
  {
  }

  lemma {:induction false} InitEstablishes(base: Base)
    ensures Inv(Init(base))
  {
    hide Last, HandedOut, Legal, Share, Waits;
    var s := Init(base);
    assert [] + s.queue == [];
    Nothing(0);
    forall d: Index
      ensures s.bd[d].Empty() && Last(0, d) < 0 && !Waits([], Last(0, d))
    {
      LastFacts(0, 0, d);
      Nothing(Last(0, d));
    }
  }

  lemma {:induction false} HappenKeeps(s: Smap, e: Event)
    requires Inv(s) && Enabled(s, e)
    ensures Inv(Happen(s, e))
  {
    match e {
      case Stored(bd) => FillKeeps(s, bd);
      case RxIrq(pool) => RxIntVisitsAll(s, pool);
      case DmaIrq => DmaInterruptKeeps(s);
      case Foreigner(r) => ForeignTransferKeeps(s, r);
    }
    hide Inv, Rounds, DmaInterrupt, DmaTransfer, RoomForEach, StopsInTime;
  }

  lemma {:induction false} RunKeeps(s: Smap, events: seq<Event>, t: Smap)
    requires Inv(s) && Run(s, events, t)
    ensures Inv(t)
    decreases |events|
  {
    hide Inv, Happen, Enabled;
    if events != [] {
      HappenKeeps(s, events[0]);
      RunKeeps(Happen(s, events[0]), events[1..], t);
    }
  }

  /** In every reachable state each visited descriptor has been given back with exactly one FRAME_DEC, except
      those whose transfers are queued; frames are passed on in ring order; and none of the last 19 frames has
      been written over by the newest one. */
  lemma {:induction false} EveryFrameReturned(base: Base, events: seq<Event>, t: Smap)
    requires Run(Init(base), events, t)
    ensures t.decs + |Share(t.queue)| == t.visited <= t.filled <= t.visited + BDS
    ensures forall d: Index ::
              t.bd[d].Empty() <==> Last(t.filled, d) < t.visited && !Waits(Share(t.queue), Last(t.filled, d))
    ensures InOrder(t, Share(t.queue))
    ensures forall j, k | 0 <= j < k < |t.pieces| && k - j <= 19 ::
              Disjoint(t.pieces[j].at, t.pieces[j].size, t.pieces[k].at, t.pieces[k].size)
  {
    InitEstablishes(base);
    RunKeeps(Init(base), events, t);
    InvMeans(t);
    hide Inv, InOrder, Run, Waits, Last, Disjoint, Share, Legal, Buffered;
    DescriptorsAccounted(t);
    LastFramesDisjoint(t);
  }

  lemma {:induction false} DescriptorsAccounted(s: Smap)
    requires Inv(s)
    ensures forall d: Index ::
              s.bd[d].Empty() <==> Last(s.filled, d) < s.visited && !Waits(Share(s.queue), Last(s.filled, d))
    ensures InOrder(s, Share(s.queue)) && Buffered(s)
  {
    assert [] + s.queue == s.queue;
    hide Pending, InOrder, Waits, Last, Share, Legal, Buffered;
  }

  /** The 20th last frame need not survive: behind a frame of 852 bytes there are 20 of the longest, and the next one
      goes over the first of those. */
  lemma {:induction false} TwentiethMayBeHit()
    ensures var ps := [Piece(0, 852, 852)] + seq(20, (i: nat) => Piece(852 + MAXFRAME * i, MAXFRAME, MAXFRAME))
                      + [Piece(0, MAXFRAME, MAXFRAME)];
            && HandedOut(RX_BUFFER_SIZE, MAXFRAME, 0, ps)
            && !Disjoint(ps[1].at, ps[1].size, ps[21].at, ps[21].size)
  {
  }

  lemma {:induction false} LastFramesDisjoint(s: Smap)
    requires Buffered(s)
    ensures forall j, k | 0 <= j < k < |s.pieces| && k - j <= 19 ::
              Disjoint(s.pieces[j].at, s.pieces[j].size, s.pieces[k].at, s.pieces[k].size)
  {
    hide Disjoint, HandedOut;
    RoomIsProduct(MAXFRAME, 21);
    forall j, k | 0 <= j < k < |s.pieces| && k - j <= 19
      ensures Disjoint(s.pieces[j].at, s.pieces[j].size, s.pieces[k].at, s.pieces[k].size)
    {
      LastPiecesSurvive(RX_BUFFER_SIZE, MAXFRAME, 0, s.pieces, 19, j, k);
    }
  }

  // ---------- a run after which a frame is handled twice ----------

  /** The chip's descriptors after it has stored the given ones. */
  function Filled(base: Base, bds: seq<Bd>): Smap
    requires |bds| <= BDS
  {
    Init(base).(bd := bds + seq(BDS - |bds|, _ => Bd(EMPTY, 0, 0)), filled := |bds|)
  }

  lemma {:induction false} StoreAll(base: Base, bds: seq<Bd>) returns (events: seq<Event>)
    requires |bds| <= BDS && forall i | 0 <= i < |bds| :: !bds[i].Empty()
    ensures Run(Init(base), events, Filled(base, bds))
    decreases |bds|
  {
    if bds == [] {
      events := [];
      assert [] + seq(BDS, _ => Bd(EMPTY, 0, 0)) == Init(base).bd;
    } else {
      var n := |bds| - 1;
      var before := StoreAll(base, bds[..n]);
      var s := Filled(base, bds[..n]);
      assert Fill(s, bds[n]).bd == Filled(base, bds).bd;
      RunSnoc(Init(base), before, s, Stored(bds[n]));
      events := before + [Stored(bds[n])];
    }
  }

  /** A good frame of 128 bytes and 63 bad ones before the interrupt: the loop gives the good one to the DMA queue,
      drops the others, finds the first descriptor not yet returned, and gives its frame to the DMA queue again. */
  lemma {:induction false} FrameIsHandledTwice(base: Base, pool: nat -> bool) returns (events: seq<Event>, s: Smap)
    requires forall u :: pool(u)
    ensures Run(Init(base), events, s)
    ensures RoomForEach(s, pool, Unvisited(s)) && !StopsInTime(s, pool)
    ensures var t := Rounds(s, pool, BDS + 1);
            var mine := Share(t.queue);
            && |mine| == 2 && mine[0].payload.Own? && mine[1].payload.Own?
            && mine[0].payload.job.index == mine[1].payload.job.index == 0
            && t.decs + |mine| == t.filled + 1
  {
    hide Inv, HandleRx, Rounds, RoomForEach, Run, Filled, Ahead, ReturnsAtOnce, Delivers, NextFree;
    var bds := [Bd(0, 128, 0)] + seq(BDS - 1, _ => Bd(0, 0, 0));
    events := StoreAll(base, bds);
    s := Filled(base, bds);
    InitEstablishes(base);
    RunKeeps(Init(base), events, s);
    FirstOfAll(base, bds);
    OthersAreBad(s, pool, bds);
    var u := Rounds(s, pool, BDS);
    RoundsKeep(s, pool, BDS);
    InvMeans(u);
    RoundsSplit(s, pool, BDS);
    assert Delivers(u, true) by { GoodIsDelivered(u); }
    SecondHandling(u, true);
    assert pool(0) && pool(u.visited);
    TwoOwn(HandleRx(u, true).queue);
    assert Rounds(s, pool, BDS + 1) == HandleRx(u, true);
  }

  lemma {:induction false} TwoOwn(q: seq<Transfer>)
    requires |q| == 2 && q[0].payload.Own? && q[1].payload.Own?
    ensures Share(q) == q
  {
    assert Share(q[1..]) == [q[1]] + Share(q[1..][1..]);
    assert q == [q[0]] + [q[1]];
  }

  lemma {:induction false} GoodIsDelivered(s: Smap)
    requires s.bd[s.rxIndex] == Bd(0, 128, 0)
    ensures Delivers(s, true)
  {
  }

  lemma {:induction false} OthersAreBad(s: Smap, pool: nat -> bool, bds: seq<Bd>)
    requires bds == [Bd(0, 128, 0)] + seq(BDS - 1, _ => Bd(0, 0, 0)) && forall u :: pool(u)
    requires s.bd == bds && s.rxIndex == s.visited == 0 && s.queue == []
    requires var t := HandleRx(s, true);
             t.bd == bds && t.rxIndex == t.visited == 1
    ensures var u := Rounds(s, pool, BDS);
            && RoomForEach(s, pool, BDS) && u.queue == HandleRx(s, true).queue && u.bd[0] == bds[0] && u.rxIndex == 0
  {
    var t := HandleRx(s, true);
    hide HandleRx, Delivers;
    forall d: Index | Ahead(1, d) < BDS - 1
      ensures Bad(t.bd[d])
    {
      AheadFacts(0, d);
    }
    BadRounds(t, pool, BDS - 1);
    AheadFacts(0, 0);
    RoundsLeave(t, pool, BDS - 1, 0);
    hide Ahead, Bad;
    assert Rounds(s, pool, BDS) == Rounds(t, pool, BDS - 1);
    assert RoomForEach(s, pool, BDS);
  }

  lemma {:induction false} FirstOfAll(base: Base, bds: seq<Bd>)
    requires bds == [Bd(0, 128, 0)] + seq(BDS - 1, _ => Bd(0, 0, 0))
    ensures var s := Filled(base, bds);
            var t := HandleRx(s, true);
            && s.bd == bds && s.rxIndex == s.visited == 0 && s.filled == BDS && s.queue == []
            && !NextFree(s) && !ReturnsAtOnce(s, true)
            && t.bd == bds && t.rxIndex == t.visited == 1
            && |t.queue| == 1 && t.queue[0].payload.Own? && t.queue[0].payload.job.index == 0
  {
    var s := Filled(base, bds);
    HandleRxMoves(s, true);
    assert Blocks(128) == 1;
    assert s.bd == bds by { assert bds + seq(0, _ => Bd(EMPTY, 0, 0)) == bds; }
  }

  // ---------- a frame given to a full DMA queue ----------

  /** The descriptor is with nobody: not given back to the chip, and not that of a queued transfer. Its frame u is not
      passed on. */
  predicate Stranded(s: Smap, d: Index, u: nat)
  {
    && !s.bd[d].Empty() && u < s.visited
    && Legal(s.queue) && Without(s.queue, IsFor(d, u))
    && forall i | 0 <= i < |s.inputs| :: s.inputs[i].number != u
  }

  function IsFor(d: Index, u: nat): Job -> bool
  {
    (job: Job) => job.index == d || job.number == u
  }

  /** What can happen to the ring while the driver is not at descriptor d, safe or not. */
  datatype Move = Stores(bd: Bd) | Calls(granted: bool) | Irq | Submits(r: Transfer)

  predicate Possible(s: Smap, m: Move, d: Index)
  {
    match m
    case Stores(bd) => NextFree(s)
    case Calls(_) => s.rxIndex != d
    case Irq => true
    case Submits(r) => Foreign([r])
  }

  function Moved(s: Smap, m: Move): Smap
  {
    match m
    case Stores(bd) => Fill(s, bd)
    case Calls(granted) => HandleRx(s, granted)
    case Irq => DmaInterrupt(s)
    case Submits(r) => DmaTransfer(s, r)
  }

  predicate Moves(s: Smap, ms: seq<Move>, t: Smap, d: Index)
    decreases |ms|
  {
    if ms == [] then s == t else Possible(s, ms[0], d) && Moves(Moved(s, ms[0]), ms[1..], t, d)
  }

  lemma {:induction false} CompleteAllStrands(s: Smap, rs: seq<Transfer>, d: Index, u: nat)
    requires Stranded(s, d, u) && Without(rs, IsFor(d, u))
    ensures Stranded(CompleteAll(s, rs), d, u)
    decreases |rs|
  {
    hide Legal;
    if rs != [] {
      assert Without(rs[1..], IsFor(d, u));
      CompleteAllStrands(Complete(s, rs[0]), rs[1..], d, u);
    }
  }

  lemma {:induction false} TransferStrands(s: Smap, r: Transfer, d: Index, u: nat)
    requires Stranded(s, d, u) && Legal([r]) && Without([r], IsFor(d, u))
    ensures Stranded(DmaTransfer(s, r), d, u)
  {
    hide Legal, Without;
    SubmitConserves(s.queue, r);
    SubmitWithout(s.queue, r, IsFor(d, u));
    var o := Submit(s.queue, r);
    CompleteAllStrands(s.(queue := o.queue), o.done, d, u);
  }

  lemma {:induction false} InterruptStrands(s: Smap, d: Index, u: nat)
    requires Stranded(s, d, u)
    ensures Stranded(DmaInterrupt(s), d, u)
  {
    hide Legal, Without;
    InterruptConserves(s.queue);
    InterruptWithout(s.queue, IsFor(d, u));
    var o := Interrupt(s.queue);
    CompleteAllStrands(s.(queue := o.queue), o.done, d, u);
  }

  lemma {:induction false} HandleRxStrands(s: Smap, granted: bool, d: Index, u: nat)
    requires Stranded(s, d, u) && s.rxIndex != d
    ensures Stranded(HandleRx(s, granted), d, u)
  {
    hide Legal, DmaTransfer;
    var bd := s.bd[s.rxIndex];
    if Delivers(s, granted) {
      var t, r := Allotted(s), RxTransfer(s.base, Allotment(s));
      OwnIsLegal(r);
      TransferStrands(t, r, d, u);
    }
  }

  lemma {:induction false} MovedStrands(s: Smap, m: Move, d: Index, u: nat)
    requires Stranded(s, d, u) && Possible(s, m, d)
    ensures Stranded(Moved(s, m), d, u)
  {
    match m {
      case Stores(bd) => hide Legal, Without;
      case Calls(granted) => HandleRxStrands(s, granted, d, u);
      case Irq => InterruptStrands(s, d, u);
      case Submits(r) =>
        ForeignIsLegal(r);
        TransferStrands(s, r, d, u);
    }
  }

  lemma {:induction false} MovesStrand(s: Smap, ms: seq<Move>, t: Smap, d: Index, u: nat)
    requires Stranded(s, d, u) && Moves(s, ms, t, d)
    ensures Stranded(t, d, u)
    decreases |ms|
  {
    hide Stranded, Moved, Possible;
    if ms != [] {
      MovedStrands(s, ms[0], d, u);
      MovesStrand(Moved(s, ms[0]), ms[1..], t, d, u);
    }
  }

  /** A frame given to a full DMA queue is visited, but whatever happens then, until the driver has gone round the ring
      and comes to its descriptor again, the descriptor does not come back and the frame is not passed on. */
  lemma {:induction false} FullQueueStrands(s: Smap, ms: seq<Move>, t: Smap)
    requires Inv(s) && s.visited < s.filled && Delivers(s, true) && |s.queue| == SLOTS - 1
    requires Moves(HandleRx(s, true), ms, t, s.rxIndex)
    ensures Stranded(HandleRx(s, true), s.rxIndex, s.visited) && Stranded(t, s.rxIndex, s.visited)
    ensures HandleRx(s, true).decs == s.decs && HandleRx(s, true).queue == s.queue
  {
    NobodyHas(s);
    HandleRxMoves(s, true);
    RefusedFrame(s);
    hide Inv, HandleRx, Moves, Delivers;
    MovesStrand(HandleRx(s, true), ms, t, s.rxIndex, s.visited);
  }

  lemma {:induction false} RefusedFrame(s: Smap)
    requires Delivers(s, true) && |s.queue| == SLOTS - 1
    ensures var t := HandleRx(s, true); t.decs == s.decs && t.queue == s.queue && t.inputs == s.inputs && t.bd == s.bd
  {
    hide Settled;
  }

  /** The next frame is not queued, nor passed on, nor is any other frame of its descriptor queued. */
  lemma {:induction false} NobodyHas(s: Smap)
    requires Inv(s) && s.visited < s.filled
    ensures !s.bd[s.rxIndex].Empty() && Legal(s.queue) && Without(s.queue, IsFor(s.rxIndex, s.visited))
    ensures forall i | 0 <= i < |s.inputs| :: s.inputs[i].number != s.visited
  {
    InvMeans(s);
    var mine := Share(s.queue);
    assert [] + s.queue == s.queue;
    forall i | 0 <= i < |mine| && mine[i].payload.Own?
      ensures !IsFor(s.rxIndex, s.visited)(mine[i].payload.job)
    {
      LastFacts(s.visited, mine[i].payload.job.number, s.rxIndex);
      hide Last;
      SameLap(mine[i].payload.job.number, s.visited, s.filled);
    }
    hide Pending, Accounted, Buffered, Share, Legal;
    WithoutInShare(s.queue, IsFor(s.rxIndex, s.visited));
  }

  lemma {:induction false} SameLap(u: nat, v: nat, filled: nat)
    requires filled <= u + BDS && u < v < filled
    ensures u % BDS != v % BDS
  {
  }
}
