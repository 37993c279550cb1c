/** Every frame that was delivered can still be passed on: the engine can finish what it has begun, and its interrupts
    empty the DMA queue. */
module RxProgress {
  import opened DmaQueue
  import opened DmaShare
  import opened SmapBd
  import opened SmapRx
  import RxFifo
  import opened RxInvariant
  import opened RxWords
  import opened RxCopy

  /** Only the engine and its interrupts are involved. */
  predicate Internal(hs: seq<Happening>)
  {
    forall i | 0 <= i < |hs| :: hs[i].Word? || hs[i].Dma?
  }

  lemma {:induction false} EngineGoesOn(x: Rx)
    requires Inv(x.s) && Now(x) && !EngineDone(x)
    ensures CanMove(x) && MoveWord(x).moved == x.moved + 1 && MoveWord(x).s == x.s
  {
    hide Inv, OnChip, InPieces, Kept, BlockWords, InBlocks, PartInBuffer, Onwards, PtrOf;
    JobsCons(x.s, x.s.queue);
    HeadAsks(x);
  }

  /** Words moved by the engine, up to its interrupt. */
  lemma {:induction false} EngineFinishes(x: Rx) returns (hs: seq<Happening>, y: Rx)
    requires Inv(x.s) && Now(x)
    ensures Runs(x, hs, y) && Internal(hs) && EngineDone(y) && y.s == x.s
    decreases if x.s.queue == [] then 0 else InBlocks(x.s.queue[0]) - x.moved
  {
    hide Inv, Now, EngineDone, MoveWord, InBlocks;
    if EngineDone(x) {
      hs, y := [], x;
    } else {
      EngineGoesOn(x);
      MoveWordKeeps(x);
      var more;
      more, y := EngineFinishes(MoveWord(x));
      hs := [Word] + more;
      assert hs[1..] == more;
    }
  }

  lemma {:induction false} RunsJoin(x: Rx, a: seq<Happening>, y: Rx, b: seq<Happening>, z: Rx)
    requires Runs(x, a, y) && Runs(y, b, z)
    ensures Runs(x, a + b, z)
    decreases |a|
  {
    hide Happened;
    if a == [] {
      assert a + b == b;
    } else {
      assert (a + b)[0] == a[0] && (a + b)[1..] == a[1..] + b;
      RunsJoin(Happened(x, a[0]), a[1..], y, b, z);
    }
  }

  /** What an interrupt leaves alone. */
  lemma {:induction false} InterruptIsInside(x: Rx)
    requires Inv(x.s) && x.s.queue != []
    ensures var y := Interrupted(x);
            && y.s.queue == Interrupt(x.s.queue).queue
            && y.s.visited == x.s.visited && y.s.filled == x.s.filled && y.s.pieces == x.s.pieces
  {
    InterruptConserves(x.s.queue);
    InterruptedRefines(x);
    var o := Interrupt(x.s.queue);
    CompleteAllLeaves(x.s.(queue := o.queue), o.done);
    hide Inv, Interrupted, CompleteAll;
  }

  lemma {:induction false} CompleteAllLeaves(s: Smap, rs: seq<Transfer>)
    ensures var t := CompleteAll(s, rs);
            t.queue == s.queue && t.visited == s.visited && t.filled == s.filled && t.pieces == s.pieces
    decreases |rs|
  {
    if rs != [] { CompleteAllLeaves(Complete(s, rs[0]), rs[1..]); }
  }

  lemma {:induction false} QueueEmpties(x: Rx) returns (hs: seq<Happening>, y: Rx)
    requires Inv(x.s) && Now(x)
    ensures Runs(x, hs, y) && Internal(hs) && Inv(y.s) && Now(y) && y.s.queue == []
    ensures y.s.visited == x.s.visited && y.s.filled == x.s.filled && y.s.pieces == x.s.pieces
    decreases Weight(x.s.queue)
  {
    hide Inv, Now, EngineDone, Interrupted;
    if x.s.queue == [] {
      hs, y := [], x;
    } else {
      var first, z := EngineFinishes(x);
      RunsKeep(x, first, z);
      InterruptShrinks(x.s.queue);
      InterruptIsInside(z);
      HappenedKeeps(z, Dma);
      var more;
      more, y := QueueEmpties(Interrupted(z));
      hs := first + [Dma] + more;
      assert ([Dma] + more)[1..] == more;
      RunsJoin(x, first, z, [Dma] + more, y);
      assert first + ([Dma] + more) == hs;
    }
  }

  /** From every reachable state there is a run, of the engine and its interrupts alone, after which every frame that
      has been visited is passed on or was dropped, with its FRAME_DEC written. */
  lemma {:induction false} EveryFrameCanBePassedOn(base: Base, mem: RxFifo.Memory, buf: Buffer, before: seq<Happening>,
                                                   x: Rx)
    returns (hs: seq<Happening>, y: Rx)
    requires Runs(Start(base, mem, buf), before, x)
    ensures Runs(x, hs, y) && Internal(hs)
    ensures y.s.queue == [] && y.s.visited == x.s.visited && y.s.decs == y.s.visited
    ensures y.s.pieces == x.s.pieces && |y.s.inputs| == |y.s.pieces|
  {
    hide Inv, Now, Runs, Internal;
    InitEstablishes(base);
    StartIsGood(base, mem, buf);
    RunsKeep(Start(base, mem, buf), before, x);
    hs, y := QueueEmpties(x);
    NothingQueued(y);
  }

  lemma {:induction false} NothingQueued(y: Rx)
    requires Inv(y.s) && Now(y) && y.s.queue == []
    ensures y.s.decs == y.s.visited && |y.s.inputs| == |y.s.pieces|
  {
    InvMeans(y.s);
    assert Share<Job>([]) == [] && JobsOf([]) == [];
    hide Inv, OnChip, Reading, Kept, JobFits;
  }
}
