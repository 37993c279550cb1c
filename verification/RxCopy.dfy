/** The last frames passed on are in the receive buffer as the chip stored them, over all runs of RxWords; and a run for
    which a short frame is not. */
module RxCopy {
  import opened DmaQueue
  import opened DmaShare
  import opened BumpRing
  import opened SmapBd
  import opened SmapRx
  import RxFifo
  import opened RxInvariant
  import opened RxWords
  import Sequences

  // ---------- steps ----------

  lemma {:induction false} JobsOfShare(rs: seq<Transfer>)
    ensures JobsOf(Share(rs)) == JobsOf(rs)
    decreases |rs|
  {
    if rs != [] {
      JobsOfShare(rs[1..]);
      if rs[0].payload.Own? {
        assert Share(rs)[1..] == Share(rs[1..]);
      } else {
        assert Share(rs) == Share(rs[1..]);
      }
    }
  }

  /** The invariant depends on the transfers by their jobs alone, and not on the queue. */
  lemma {:induction false} GoodByJobs(x: Rx, q: Queue, a: seq<Transfer>, b: seq<Transfer>, p: Progress)
    requires Good(x, a, p) && JobsOf(a) == JobsOf(b)
    ensures Good(x.(s := x.s.(queue := q)), b, p)
  {
    hide JobsOf, PlaceOf, Held, Straight, InBuffer, JobFits, PartInBuffer, Onwards, Last, PtrOf, ReadPlace, ChipPlace;
    var y, js := x.(s := x.s.(queue := q)), Jobs(x.s, a);
    assert Jobs(y.s, b) == js;
  }

  /** The transfer that is begun has been moved through none of its words, and the read pointer is at its place. */
  lemma {:induction false} BeginKeeps(x: Rx)
    requires Good(x, x.s.queue, Waiting) && Buffered(x.s)
    ensures Now(Begin(x)) && Begin(x).s == x.s
  {
    hide OnChip, InPieces, Pointing, Kept, Jobs, Onwards, PtrOf, PartInBuffer, Buffered, Count;
    var y, js := Begin(x), Jobs(x.s, x.s.queue);
    CopyKeepsChip(x, y);
    PiecesMean(x, js);
    FinishKeepsPieces(x, y, js);
    if x.s.queue != [] && x.s.queue[0].payload.Own? {
      JobsCons(x.s, x.s.queue);
      AfterZero(y.rdPtr);
      NothingInBuffer(x, js);
      KeptLess(x, y, js);
    } else {
      PlaceKeeps(x, y, js, Waiting);
    }
  }

  lemma {:induction false} NothingInBuffer(x: Rx, js: seq<Job>)
    requires OnChip(x) && InPieces(x, js) && Buffered(x.s) && |x.s.inputs| < |js|
    ensures PartInBuffer(x.buf, js[|x.s.inputs|], x.stored, 0)
  {
    hide InPieces, Buffered, PlaceOf, Intact;
    JobInBuffer(x, js, |x.s.inputs|);
    JobPlace(x, js, |x.s.inputs|);
  }

  lemma {:induction false} KeptLess(x: Rx, y: Rx, js: seq<Job>)
    requires |x.s.inputs| <= |js| && Kept(x, js, Waiting)
    requires y.s.inputs == x.s.inputs && y.buf == x.buf && y.stored == x.stored
    ensures Kept(y, js, Begun(0))
  {
    hide InBuffer, Straight;
  }

  lemma {:induction false} OutcomeKeeps(x: Rx, o: Outcome<DmaShare.Payload<Job>>, mine: seq<Transfer>, p: Progress)
    requires Settled(o.queue) && Share(o.done + o.queue) == mine && Good(x, mine, p)
    requires if o.done == [] then p == Waiting else AtEnd(o.done[0], p) && Instant(o.done[1..])
    requires Pending(x.s, mine) && Accounted(x.s, mine) && InOrder(x.s, mine) && Buffered(x.s)
    ensures Now(Applied(x, o, true))
  {
    hide Pending, Accounted, InOrder, Buffered, Settled, Good, Share, JobsOf, AtEnd, Instant, Begin, Now;
    var y := x.(s := x.s.(queue := o.queue));
    QueueIrrelevant(x.s, o.queue, mine);
    JobsOfShare(o.done + o.queue);
    GoodByJobs(x, o.queue, mine, o.done + o.queue, p);
    FinishAllKeeps(y, o.done, p);
    FinishAllRefines(y, o.done);
    CompleteAllPays(y.s, o.done);
    CompleteAllKeeps(y.s, o.done);
    CoreMeans(FinishAll(y, o.done).s, []);
    BeginKeeps(FinishAll(y, o.done));
  }

  lemma {:induction false} TransferringKeeps(x: Rx, r: Transfer, mine: seq<Transfer>)
    requires Legal(x.s.queue) && Legal([r]) && |x.s.queue| < SLOTS - 1
    requires mine == Share(x.s.queue) + Share([r]) && Good(x, mine, ProgressOf(x))
    requires Pending(x.s, mine) && Accounted(x.s, mine) && InOrder(x.s, mine) && Buffered(x.s)
    ensures Now(Transferring(x, r))
  {
    hide Pending, Accounted, InOrder, Buffered, Legal, Good, Share, AtEnd, Applied;
    SubmitConserves(x.s.queue, r);
    SubmitIsForeign(x.s.queue, r);
    var o := Submit(x.s.queue, r);
    if x.s.queue == [] {
      if o.done != [] { DoneAtEnd(x.s, o, mine); }
      OutcomeKeeps(x, o, mine, Waiting);
    } else {
      assert o == Outcome([], x.s.queue + [r], [r]);
      assert [] + o.queue == o.queue;
      NothingApplied(x, o);
      JobsOfShare(o.queue);
      GoodByJobs(x, o.queue, mine, o.queue, ProgressOf(x));
    }
  }

  lemma {:induction false} NothingApplied(x: Rx, o: Outcome<DmaShare.Payload<Job>>)
    requires Settled(o.queue) && o.done == []
    ensures Applied(x, o, false) == x.(s := x.s.(queue := o.queue))
  {
  }

  /** What a submission to an idle queue completes has no block. */
  lemma {:induction false} DoneAtEnd(s: Smap, o: Outcome<DmaShare.Payload<Job>>, mine: seq<Transfer>)
    requires o.done != [] && Instant(o.done) && Share(o.done + o.queue) == mine && Pending(s, mine)
    ensures AtEnd(o.done[0], Waiting) && Instant(o.done[1..])
  {
    hide Aligned, Blocks;
    var all := o.done + o.queue;
    assert all[0] == o.done[0];
    if o.done[0].payload.Own? { assert mine[0] == o.done[0]; }
    assert forall i | 0 <= i < |o.done[1..]| :: o.done[1..][i] == o.done[i + 1];
  }

  /** The request at the head asks for what its job says. */
  lemma {:induction false} HeadAsks(x: Rx)
    requires Inv(x.s) && x.s.queue != [] && x.s.queue[0].payload.Own?
    ensures var r := x.s.queue[0]; Target(x, r) == r.payload.job.at / 4 && InBlocks(r) == BlockWords(r.payload.job.len)
  {
    CoreOfInv(x.s);
    hide Inv;
    SizeOfFirst(x.s.(queue := []), x.s.queue);
  }

  lemma {:induction false} InterruptedKeeps(x: Rx)
    requires Inv(x.s) && Now(x) && EngineDone(x)
    ensures Now(Interrupted(x))
  {
    hide Pending, Accounted, InOrder, Buffered, Legal, Good, Share, Applied, BlockWords, JobsOf, InBlocks;
    if x.s.queue != [] {
      if x.s.queue[0].payload.Own? { HeadAsks(x); }
      InterruptConserves(x.s.queue);
      InterruptIsForeign(x.s.queue);
      assert [] + x.s.queue == x.s.queue;
      var o := Interrupt(x.s.queue);
      JobsOfShare(x.s.queue);
      GoodByJobs(x, x.s.queue, x.s.queue, Share(x.s.queue), ProgressOf(x));
      OutcomeKeeps(x, o, Share(x.s.queue), ProgressOf(x));
    }
  }

  lemma {:induction false} ClientKeeps(x: Rx, r: Transfer)
    requires Inv(x.s) && Now(x) && Foreign([r])
    ensures Now(Transferring(x, r))
  {
    hide Pending, Accounted, InOrder, Buffered, Legal, Good, Share, JobsOf;
    assert [] + x.s.queue == x.s.queue;
    if |x.s.queue| < SLOTS - 1 {
      hide Transferring;
      ForeignIsLegal(r);
      assert Share(x.s.queue) + Share([r]) == Share(x.s.queue);
      JobsOfShare(x.s.queue);
      GoodByJobs(x, x.s.queue, x.s.queue, Share(x.s.queue), ProgressOf(x));
      TransferringKeeps(x, r, Share(x.s.queue));
    } else {
      SubmitConserves(x.s.queue, r);
      NothingApplied(x, Submit(x.s.queue, r));
    }
  }

  /** A word moved by the engine is the next one of its frame, and leaves the last 19 frames. */
  lemma {:induction false} MoveWordKeeps(x: Rx)
    requires Inv(x.s) && Now(x) && CanMove(x)
    ensures Now(MoveWord(x))
  {
    hide Inv, OnChip, InPieces, Reading, Kept, Jobs, Read, Buffered, BlockWords, InBlocks, Target;
    HeadAsks(x);
    var y, js, j := MoveWord(x), Jobs(x.s, x.s.queue), x.s.queue[0].payload.job;
    JobsCons(x.s, x.s.queue);
    CoreOfInv(x.s);
    ReadSame(x, j.at / 4 + x.moved, 1);
    CopyKeepsChip(x, y);
    PiecesMean(x, js);
    FinishKeepsPieces(x, y, js);
    MoveWordReads(x, js);
    MoveKeepsBuffer(x, js);
  }

  lemma {:induction false} MoveWordReads(x: Rx, js: seq<Job>)
    requires Inv(x.s) && OnChip(x) && InPieces(x, js) && CanMove(x) && Reading(x, js, Begun(x.moved))
    requires |x.s.inputs| < |js| && js[|x.s.inputs|] == x.s.queue[0].payload.job
    ensures Reading(MoveWord(x), js, Begun(x.moved + 1))
  {
    hide Inv, OnChip, InPieces, PartInBuffer, Read, RxFifo.Words, Count, Onwards, PtrOf, Last, BlockWords, Buffered;
    hide InBlocks, Target;
    HeadAsks(x);
    var j := x.s.queue[0].payload.job;
    CoreOfInv(x.s);
    FirstIsHeld(x.s.(queue := []), x.s.queue);
    HeldWords(x, js);
    JobInBuffer(x, js, |x.s.inputs|);
    WithinBlocks(j.len);
    ReadContinues(x, j, x.moved, 1);
    ReadSame(x, j.at / 4 + x.moved, 1);
  }

  lemma {:induction false} WithinBlocks(len: U16)
    ensures BlockWords(len) <= Count(len)
  {
  }

  lemma {:induction false} ReadSame(x: Rx, at: nat, n: nat)
    ensures var y := Read(x, at, n); y == x.(buf := y.buf, rdPtr := y.rdPtr)
  {
  }

  /** The queue may be looked at as being about to complete. */
  lemma {:induction false} CoreOfInv(s: Smap)
    requires Inv(s)
    ensures Core(s.(queue := []), s.queue) && Buffered(s)
  {
    hide Pending, Accounted, InOrder, Buffered, Share, Legal;
    assert [] + s.queue == s.queue && s.queue + [] == s.queue;
    QueueIrrelevant(s, [], Share(s.queue));
  }

  lemma {:induction false} MoveKeepsBuffer(x: Rx, js: seq<Job>)
    requires Inv(x.s) && CanMove(x) && |x.s.inputs| < |js| && js[|x.s.inputs|] == x.s.queue[0].payload.job
    requires InPieces(x, js) && Buffered(x.s) && Kept(x, js, Begun(x.moved))
    ensures Kept(MoveWord(x), js, Begun(x.moved + 1))
  {
    hide Inv, InPieces, Buffered, InBuffer, Straight, Read, Count, BlockWords, InBlocks, Target;
    HeadAsks(x);
    var y, j, c := MoveWord(x), js[|x.s.inputs|], |x.s.inputs|;
    WithinBlocks(j.len);
    ReadSame(x, j.at / 4 + x.moved, 1);
    forall m | 0 <= m < |y.s.inputs| && |y.s.inputs| - m <= 19 && Straight(js, m)
      ensures InBuffer(y.buf, js[m], y.stored)
    {
      ReadKeeps(x, js, m, x.moved, 1);
    }
  }

  lemma {:induction false} StraightAppend(js: seq<Job>, more: seq<Job>, m: nat)
    requires m < |js|
    ensures Straight(js + more, m) == Straight(js, m)
    decreases m
  {
    hide Blockless;
    if m > 0 { StraightAppend(js, more, m - 1); }
  }

  /** A frame that gets its piece is one job more. */
  lemma {:induction false} AllotKeepsGood(x: Rx)
    requires Now(x) && x.s.rxIndex == x.s.visited % BDS && x.s.visited < x.s.filled && !Bad(x.s.bd[x.s.rxIndex])
    ensures var y := x.(s := Allotted(x.s));
            Good(y, Share(x.s.queue) + [RxTransfer(x.s.base, Allotment(x.s))], ProgressOf(y))
  {
    hide JobsOf, OnChip, InPieces, Reading, Kept, Share;
    var r := RxTransfer(x.s.base, Allotment(x.s));
    var y, js, j := x.(s := Allotted(x.s)), Jobs(x.s, x.s.queue), Allotment(x.s);
    JobsAppendOwn(Share(x.s.queue), r);
    JobsOfShare(x.s.queue);
    Sequences.Regroup(x.s.inputs, JobsOf(x.s.queue), [j]);
    AllotKeepsChip(x);
    AllotKeepsPieces(x, js);
    PlaceKeepsGrowing(x, y, js, j, ProgressOf(x));
  }

  lemma {:induction false} AllotKeepsPieces(x: Rx, js: seq<Job>)
    requires OnChip(x) && InPieces(x, js) && x.s.rxIndex == x.s.visited % BDS && x.s.visited < x.s.filled
    ensures InPieces(x.(s := Allotted(x.s)), js + [Allotment(x.s)])
  {
    var y, all := x.(s := Allotted(x.s)), js + [Allotment(x.s)];
    NewJobFits(x);
    hide OnChip, JobFits, Allotment;
    forall m | 0 <= m < |all|
      ensures JobFits(y.bds, all[m], y.s.pieces[m])
    {
      if m < |js| { assert JobFits(x.bds, js[m], x.s.pieces[m]); }
    }
  }

  lemma {:induction false} UnvisitedIsStored(x: Rx)
    requires OnChip(x) && x.s.rxIndex == x.s.visited % BDS && x.s.visited < x.s.filled
    ensures x.s.visited < |x.bds| && x.s.bd[x.s.rxIndex] == x.bds[x.s.visited]
  {
    hide Intact, PlaceOf, PtrOf, ReadPlace, ChipPlace;
    assert x.s.bd[x.s.visited % BDS] == x.bds[x.s.visited];
  }

  lemma {:induction false} PlaceInWords(ptr: nat, len: U16)
    requires ptr % 4 == 0
    ensures var at := Place(RX_BUFFER_SIZE, ptr, Aligned(len)); at % 4 == 0 && (at + Aligned(len)) % 4 == 0
  {
    CountIsAligned(len);
    hide Aligned, Count;
  }

  lemma {:induction false} NewJobFits(x: Rx)
    requires OnChip(x) && x.s.rxIndex == x.s.visited % BDS && x.s.visited < x.s.filled && x.s.dataPtr % 4 == 0
    ensures var t := Allotted(x.s);
            JobFits(x.bds, Allotment(x.s), t.pieces[|x.s.pieces|]) && t.dataPtr % 4 == 0
  {
    hide OnChip, ReadPlace, Aligned, Place;
    UnvisitedIsStored(x);
    PlaceInWords(x.s.dataPtr, x.s.bd[x.s.rxIndex].length);
  }

  lemma {:induction false} PlaceKeepsGrowing(x: Rx, y: Rx, js: seq<Job>, j: Job, p: Progress)
    requires |x.s.inputs| <= |js| && Reading(x, js, p) && Kept(x, js, p)
    requires y.s.inputs == x.s.inputs && y.rdPtr == x.rdPtr && y.buf == x.buf && y.stored == x.stored
    ensures Reading(y, js + [j], p) && Kept(y, js + [j], p)
  {
    hide InBuffer, Onwards, PartInBuffer, Count, PtrOf;
    forall m | 0 <= m < |js|
      ensures Straight(js + [j], m) == Straight(js, m)
    {
      StraightAppend(js, [j], m);
    }
    hide Straight;
  }

  lemma {:induction false} JobsAppendOwn(rs: seq<Transfer>, r: Transfer)
    requires r.payload.Own?
    ensures JobsOf(rs + [r]) == JobsOf(rs) + [r.payload.job]
    decreases |rs|
  {
    if rs == [] {
      assert [r][1..] == [];
    } else {
      var first := if rs[0].payload.Own? then [rs[0].payload.job] else [];
      assert (rs + [r])[1..] == rs[1..] + [r];
      JobsAppendOwn(rs[1..], r);
      Sequences.Regroup(first, JobsOf(rs[1..]), [r.payload.job]);
      assert JobsOf(rs + [r]) == first + JobsOf(rs[1..] + [r]);
    }
  }

  lemma {:induction false} AllotKeepsChip(x: Rx)
    requires OnChip(x)
    ensures OnChip(x.(s := Allotted(x.s)))
  {
    hide Held, Last, PlaceOf;
  }

  lemma {:induction false} HandledKeeps(x: Rx, granted: bool)
    requires Inv(x.s) && x.s.visited < x.s.filled && Now(x)
    requires Delivers(x.s, granted) ==> |x.s.queue| < SLOTS - 1
    ensures Now(Handled(x, granted))
  {
    hide Inv, Pending, Accounted, InOrder, Buffered, Legal, Good, Share, Transferring, Elsewhere, Now;
    InvMeans(x.s);
    if Delivers(x.s, granted) {
      var r := RxTransfer(x.s.base, Allotment(x.s));
      AllotKeeps(x.s);
      AllotKeepsGood(x);
      TransferringKeeps(x.(s := Allotted(x.s)), r, Share(x.s.queue) + [r]);
    } else {
      var s := HandleRx(x.s, granted);
      DropMeans(x.s, granted);
      VisitedIsElsewhere(x.s.visited, x.s.rxIndex, s.visited, s.filled);
      DropKeepsGood(x, s);
    }
  }

  lemma {:induction false} DropKeepsGood(x: Rx, s: Smap)
    requires Now(x) && Dropped(x.s, s) && Elsewhere(x.s.rxIndex, s.visited, s.filled)
    ensures Now(x.(s := s))
  {
    hide OnChip, InPieces, Reading, Kept, Jobs, Elsewhere;
    var y, js := x.(s := s), Jobs(x.s, x.s.queue);
    ReturnKeepsChip(x, s, x.s.rxIndex);
    PiecesMean(x, js);
    FinishKeepsPieces(x, y, js);
    PlaceKeeps(x, y, js, ProgressOf(x));
    JobsIgnore(x.s, s);
  }

  lemma {:induction false} JobsIgnore(s: Smap, t: Smap)
    requires t.inputs == s.inputs && t.queue == s.queue
    ensures Jobs(t, t.queue) == Jobs(s, s.queue)
  {
  }

  /** What a drop changes. */
  predicate Dropped(s: Smap, t: Smap)
  {
    && t.bd == s.bd[s.rxIndex := s.bd[s.rxIndex].(ctrl := EMPTY)]
    && t.visited == s.visited + 1 && t.filled == s.filled && t.inputs == s.inputs && t.queue == s.queue
    && t.pieces == s.pieces && (t.dataPtr == s.dataPtr || t.dataPtr == 0)
  }

  lemma {:induction false} DropMeans(s: Smap, granted: bool)
    requires !Delivers(s, granted)
    ensures Dropped(s, HandleRx(s, granted))
  {
  }

  lemma {:induction false} PlaceKeeps(x: Rx, y: Rx, js: seq<Job>, p: Progress)
    requires |x.s.inputs| <= |js| && Reading(x, js, p) && Kept(x, js, p)
    requires y.s.inputs == x.s.inputs && y.rdPtr == x.rdPtr && y.buf == x.buf && y.stored == x.stored
    ensures Reading(y, js, p) && Kept(y, js, p)
  {
    hide InBuffer, Onwards, Straight, PartInBuffer, Count, PtrOf;
  }

  lemma {:induction false} HandledAllKeeps(x: Rx, pool: nat -> bool, n: nat)
    requires Inv(x.s) && Now(x) && n <= Unvisited(x.s) && RoomForEach(x.s, pool, n)
    ensures Now(HandledAll(x, pool, n))
    decreases n
  {
    hide Inv, Now, Handled, HandleRx, Delivers;
    if n > 0 {
      HandledKeeps(x, pool(x.s.visited));
      HandleRxKeeps(x.s, pool(x.s.visited));
      HandledRefines(x, pool(x.s.visited));
      HandledAllKeeps(Handled(x, pool(x.s.visited)), pool, n - 1);
    }
  }

  // ---------- the chip stores a frame ----------

  lemma {:induction false} BeginAppend(bds: seq<Bd>, bd: Bd, u: nat)
    requires u <= |bds|
    ensures PlaceOf(bds + [bd], u) == PlaceOf(bds, u)
    decreases u
  {
    hide Onwards;
    if u > 0 { BeginAppend(bds, bd, u - 1); }
  }

  lemma {:induction false} StoringKeeps(x: Rx, bd: Bd, mem: RxFifo.Memory)
    requires Inv(x.s) && Now(x) && CanHappen(x, Storing(bd, mem))
    ensures Now(Happened(x, Storing(bd, mem)))
  {
    hide Inv, OnChip, JobsOf, Straight, InPieces, Reading, Kept, PtrOf, Spares, Held, ChipPlace, PlaceOf;
    var y, js := Happened(x, Storing(bd, mem)), Jobs(x.s, x.s.queue);
    InvMeans(x.s);
    NotFull(x.s);
    StoringKeepsChip(x, bd, mem);
    StoringKeepsPieces(x, y, js, bd);
    StoringKeepsWords(x, y, js, Held(mem, bd), ProgressOf(x));
    assert Jobs(y.s, y.s.queue) == js;
  }

  lemma {:induction false} StoringKeepsPieces(x: Rx, y: Rx, js: seq<Job>, bd: Bd)
    requires InPieces(x, js) && y.bds == x.bds + [bd]
    requires y.s.inputs == x.s.inputs && y.s.pieces == x.s.pieces && y.s.dataPtr == x.s.dataPtr
    ensures InPieces(y, js)
  {
    forall m | 0 <= m < |js|
      ensures JobFits(y.bds, js[m], y.s.pieces[m])
    {
      assert JobFits(x.bds, js[m], x.s.pieces[m]);
    }
  }

  lemma {:induction false} StoringKeepsWords(x: Rx, y: Rx, js: seq<Job>, words: seq<Word>, p: Progress)
    requires |x.s.inputs| <= |js| && Reading(x, js, p) && Kept(x, js, p)
    requires y.stored == x.stored + [words] && y.buf == x.buf && y.rdPtr == x.rdPtr && y.s.inputs == x.s.inputs
    ensures Reading(y, js, p) && Kept(y, js, p)
  {
    hide Straight, Onwards, PtrOf, Count;
    var n := if p == Waiting then 20 else 19;
    forall m | 0 <= m < |y.s.inputs| && |y.s.inputs| - m <= n && Straight(js, m)
      ensures InBuffer(y.buf, js[m], y.stored)
    {
      assert InBuffer(x.buf, js[m], x.stored);
    }
  }

  lemma {:induction false} NotFull(s: Smap)
    requires Inv(s) && NextFree(s)
    ensures s.filled < s.visited + BDS
  {
    InvMeans(s);
    hide Inv;
  }

  lemma {:induction false} StoringKeepsChip(x: Rx, bd: Bd, mem: RxFifo.Memory)
    requires OnChip(x) && CanHappen(x, Storing(bd, mem)) && x.s.visited <= x.s.filled < x.s.visited + BDS
    ensures OnChip(Happened(x, Storing(bd, mem)))
  {
    StoringKeepsIntact(x, bd, mem);
    StoringKeepsPlaces(x, bd, mem);
    StoringKeepsUnvisited(x, bd, mem);
    hide PlaceOf, Intact, Held, Spares, PtrOf, ReadPlace, ChipPlace;
  }

  lemma {:induction false} StoringKeepsPlaces(x: Rx, bd: Bd, mem: RxFifo.Memory)
    requires OnChip(x) && CanHappen(x, Storing(bd, mem))
    ensures var bds := x.bds + [bd]; forall u | 0 <= u < |bds| :: ChipPlace(bds[u].pointer) == PlaceOf(bds, u)
  {
    hide Intact, Held, Spares, PtrOf, ChipPlace, PlaceOf;
    var bds := x.bds + [bd];
    forall u | 0 <= u < |bds|
      ensures ChipPlace(bds[u].pointer) == PlaceOf(bds, u)
    {
      BeginAppend(x.bds, bd, u);
    }
  }

  lemma {:induction false} StoringKeepsUnvisited(x: Rx, bd: Bd, mem: RxFifo.Memory)
    requires OnChip(x) && x.s.visited <= x.s.filled < x.s.visited + BDS
    ensures var bds := x.bds + [bd]; forall u | x.s.visited <= u < |bds| :: Fill(x.s, bd).bd[u % BDS] == bds[u]
  {
    var bds := x.bds + [bd];
    hide Intact, PlaceOf, PtrOf, ReadPlace, ChipPlace;
    forall u | x.s.visited <= u < |bds|
      ensures Fill(x.s, bd).bd[u % BDS] == bds[u]
    {
      if u < x.s.filled { SameLap(u, x.s.filled, x.s.filled + 1); }
    }
  }

  lemma {:induction false} StoringKeepsIntact(x: Rx, bd: Bd, mem: RxFifo.Memory)
    requires OnChip(x) && CanHappen(x, Storing(bd, mem))
    ensures var y := Happened(x, Storing(bd, mem)); Intact(y.s, y.mem, y.bds, y.stored)
  {
    hide Held, PlaceOf, Last;
    var y, n := Happened(x, Storing(bd, mem)), x.s.filled;
    forall d: Index | !y.s.bd[d].Empty() && 0 <= Last(y.s.filled, d) < |y.bds|
      ensures Held(mem, y.bds[Last(y.s.filled, d)]) == y.stored[Last(y.s.filled, d)]
    {
      LastFacts(n, 0, d);
      if d != n % BDS { assert Last(y.s.filled, d) == Last(n, d) < n && y.s.bd[d] == x.s.bd[d]; }
    }
  }

  // ---------- runs ----------

  lemma {:induction false} StartIsGood(base: Base, mem: RxFifo.Memory, buf: Buffer)
    ensures Now(Start(base, mem, buf))
  {
  }

  lemma {:induction false} HappenedKeeps(x: Rx, h: Happening)
    requires Inv(x.s) && Now(x) && CanHappen(x, h)
    ensures Inv(Happened(x, h).s) && Now(Happened(x, h))
  {
    hide Inv, Now;
    HappenedRefines(x, h);
    match h {
      case Storing(bd, mem) =>
        HappenKeeps(x.s, Stored(bd));
        StoringKeeps(x, bd, mem);
      case Chip(pool) =>
        HappenKeeps(x.s, RxIrq(pool));
        HandledAllKeeps(x, pool, Unvisited(x.s));
      case Word =>
        MoveWordKeeps(x);
      case Dma =>
        HappenKeeps(x.s, DmaIrq);
        InterruptedKeeps(x);
      case Client(r) =>
        HappenKeeps(x.s, Foreigner(r));
        ClientKeeps(x, r);
    }
  }

  lemma {:induction false} RunsKeep(x: Rx, hs: seq<Happening>, y: Rx)
    requires Inv(x.s) && Now(x) && Runs(x, hs, y)
    ensures Inv(y.s) && Now(y)
    decreases |hs|
  {
    hide Inv, Now, Happened;
    if hs != [] {
      HappenedKeeps(x, hs[0]);
      RunsKeep(Happened(x, hs[0]), hs[1..], y);
    }
  }

  /** In every reachable state each of the last 19 frames that were passed on is in the receive buffer word for word as
      the chip stored it, and so is the 20th last while no transfer of the receiver is running, if the frame has a
      block, or no frame was dropped between it and the last one before it with a block. */
  lemma {:induction false} RecentFramesIntact(base: Base, mem: RxFifo.Memory, buf: Buffer, hs: seq<Happening>,
                                              x: Rx, m: nat)
    requires Runs(Start(base, mem, buf), hs, x)
    requires m < |x.s.inputs| <= m + (if ProgressOf(x) == Waiting then 20 else 19) && Straight(x.s.inputs, m)
    ensures InBuffer(x.buf, x.s.inputs[m], x.stored)
  {
    hide Inv, Runs, OnChip, InPieces, Reading, InBuffer, Straight, JobsOf;
    InitEstablishes(base);
    StartIsGood(base, mem, buf);
    RunsKeep(Start(base, mem, buf), hs, x);
    StraightAppend(x.s.inputs, JobsOf(x.s.queue), m);
    assert Jobs(x.s, x.s.queue)[m] == x.s.inputs[m];
  }

  /** Frames of 125 bytes and more are straight, and so are all as long as no frame has been dropped. */
  lemma {:induction false} StraightIf(js: seq<Job>, m: nat)
    requires m < |js|
    requires js[m].len >= 125 || forall i | 0 <= i <= m :: js[i].number == i
    ensures Straight(js, m)
    decreases m
  {
    hide Blocks;
    BlocksExactBelow8M(Aligned(js[m].len));
    if js[m].len < 125 && m > 0 { StraightIf(js, m - 1); }
  }

  // ---------- a short frame behind a dropped one ----------

  /** The chip's memory, every word of which holds its own number. */
  function Counting(): RxFifo.Memory
  {
    seq(RxFifo.RXWORDS, i requires 0 <= i < RxFifo.RXWORDS => i)
  }

  lemma {:induction false} CountingWords(ptr: RxFifo.Ptr, n: nat)
    requires ptr / 4 + n <= RxFifo.RXWORDS
    ensures var ws := RxFifo.Words(Counting(), ptr, n); |ws| == n && forall i | 0 <= i < n :: ws[i] == ptr / 4 + i
  {
  }

  /** A run from power-on after which the frame passed on is not what the chip stored: four bytes, which are dropped as
      too short, and then a frame of 16. */
  lemma {:induction false} ShortFrameIsWrong(base: Base, buf: Buffer, pool: nat -> bool)
    returns (hs: seq<Happening>, x: Rx)
    requires pool(1)
    ensures Runs(Start(base, Counting(), buf), hs, x)
    ensures |x.s.inputs| == 1 && x.s.inputs[0].number == 1 && !InBuffer(x.buf, x.s.inputs[0], x.stored)
  {
    hide Counting, RxFifo.Words, Written, Handled, Happened, Runs, InBuffer, CanHappen;
    var mem, tiny, short := Counting(), Bd(0, 4, RXBUFBASE), Bd(0, 16, RXBUFBASE + 4);
    var x0 := Start(base, mem, buf);
    var x2 := TwoStored(base, buf);
    var x3 := Handled(x2, pool(0));
    TinyIsDropped(x2, pool(0));
    ShortIsPassedOn(x3);
    TwoRounds(x2, pool);
    hs, x := [Storing(tiny, mem), Storing(short, mem), Chip(pool)], Handled(x3, true);
    ThreeHappen(x0, Storing(tiny, mem), Storing(short, mem), Chip(pool));
    NotTheFrame(x3.buf, x.s.inputs[0], x.stored);
  }

  /** The state after the chip has stored the two frames. */
  function TwoStored(base: Base, buf: Buffer): (x: Rx)
    ensures var mem, tiny, short := Counting(), Bd(0, 4, RXBUFBASE), Bd(0, 16, RXBUFBASE + 4);
            var x0 := Start(base, mem, buf);
            && CanHappen(x0, Storing(tiny, mem)) && CanHappen(Happened(x0, Storing(tiny, mem)), Storing(short, mem))
            && x == Happened(Happened(x0, Storing(tiny, mem)), Storing(short, mem))
    ensures x.s.visited == 0 && x.s.filled == 2 && x.s.rxIndex == 0 && x.s.queue == []
            && x.s.inputs == [] && x.s.dataPtr == 0
    ensures x.s.bd[0] == Bd(0, 4, RXBUFBASE) && x.s.bd[1] == Bd(0, 16, RXBUFBASE + 4) && x.s.bd[2].Empty()
    ensures x.rdPtr == 0 && x.buf == buf && x.mem == Counting()
    ensures |x.stored| == 2 && x.stored[1] == RxFifo.Words(Counting(), 4, 4)
  {
    hide Counting, RxFifo.Words;
    var mem, tiny, short := Counting(), Bd(0, 4, RXBUFBASE), Bd(0, 16, RXBUFBASE + 4);
    var x0 := Start(base, mem, buf);
    assert CanHappen(x0, Storing(tiny, mem));
    var x1 := Happened(x0, Storing(tiny, mem));
    assert x1.bds == [tiny];
    assert PlaceOf([tiny], 1) == Onwards(PlaceOf([tiny], 0), Count(4)) == 4;
    assert ChipPlace(short.pointer) == 4;
    assert Enabled(x1.s, Stored(short));
    assert Spares(x1, mem);
    assert CanHappen(x1, Storing(short, mem));
    Happened(x1, Storing(short, mem))
  }

  lemma {:induction false} ThreeHappen(x: Rx, a: Happening, b: Happening, c: Happening)
    requires CanHappen(x, a) && CanHappen(Happened(x, a), b) && CanHappen(Happened(Happened(x, a), b), c)
    ensures Runs(x, [a, b, c], Happened(Happened(Happened(x, a), b), c))
  {
    hide Happened;
    var y, z := Happened(x, a), Happened(Happened(x, a), b);
    assert [a, b, c][1..] == [b, c] && [b, c][1..] == [c] && [c][1..] == [];
    assert Runs(z, [c], Happened(z, c));
    assert Runs(y, [b, c], Happened(z, c));
  }

  lemma {:induction false} NotTheFrame(buf: Buffer, j: Job, stored: seq<seq<Word>>)
    requires j.number == 1 && j.at == 0 && j.len == 16
    requires |stored| == 2 && stored[1] == RxFifo.Words(Counting(), 4, 4)
    ensures !InBuffer(Written(buf, 0, RxFifo.Words(Counting(), 0, 4)), j, stored)
  {
    hide Counting, RxFifo.Words, Written;
    CountingWords(0, 4);
    CountingWords(4, 4);
    var ws := RxFifo.Words(Counting(), 0, 4);
    WrittenHolds(buf, 0, ws);
    assert Written(buf, 0, ws)[0..4][0] == 0 && stored[1][0] == 1;
  }

  lemma {:induction false} TinyIsDropped(x: Rx, granted: bool)
    requires x.s.rxIndex == 0 && x.s.bd[0] == Bd(0, 4, RXBUFBASE)
    ensures Handled(x, granted)
            == x.(s := x.s.(bd := x.s.bd[0 := Bd(EMPTY, 4, RXBUFBASE)], decs := x.s.decs + 1,
              rxIndex := 1, visited := x.s.visited + 1))
  {
  }

  lemma {:induction false} ShortIsPassedOn(x: Rx)
    requires x.s.rxIndex == 1 && x.s.bd[1] == Bd(0, 16, RXBUFBASE + 4) && x.s.queue == [] && x.s.inputs == []
    requires x.s.dataPtr == 0 && x.rdPtr == 0
    ensures var y := Handled(x, true);
            && y.s.inputs == [Job(x.s.visited, 1, 0, 16, 4)]
            && y.buf == Written(x.buf, 0, RxFifo.Words(x.mem, 0, 4)) && y.stored == x.stored
  {
    hide RxFifo.Words, Written;
    var r, z := RxTransfer(x.s.base, Allotment(x.s)), x.(s := Allotted(x.s));
    assert Blocks(16) == 0;
    SettleOne(r);
    assert [r][1..] == [];
    assert FinishAll(z, [r]) == FinishAll(FinishOne(z, r), []);
    assert FinishOne(z, r).buf == Written(x.buf, 0, RxFifo.Words(x.mem, 0, 4));
  }

  lemma {:induction false} TwoRounds(x: Rx, pool: nat -> bool)
    requires x.s.visited == 0 && x.s.filled == 2 && pool(1)
    requires x.s.rxIndex == 0 && x.s.queue == [] && x.s.bd[0] == Bd(0, 4, RXBUFBASE) && x.s.bd[2].Empty()
    ensures CanHappen(x, Chip(pool))
    ensures Happened(x, Chip(pool)) == Handled(Handled(x, pool(0)), true)
  {
    TinyIsDropped(x, pool(0));
    HandledRefines(x, pool(0));
    hide Handled;
    var y := Handled(x, pool(0));
    assert HandledAll(x, pool, 2) == HandledAll(y, pool, 1);
    assert HandledAll(y, pool, 1) == HandledAll(Handled(y, pool(1)), pool, 0);
    hide HandleRx;
    assert RoomForEach(y.s, pool, 1) by { assert RoomForEach(HandleRx(y.s, pool(1)), pool, 0); }
  }
}
