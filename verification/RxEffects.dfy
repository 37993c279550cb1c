/** What the operations of the receiver do, on the fields of the descriptor at hand, and that a dropped frame is never
    passed on. */
module RxEffects {
  import opened DmaQueue
  import opened DmaShare
  import opened BumpRing
  import opened SmapBd
  import opened SmapRx
  import opened RxInvariant

  /** What HandleRX wants of a frame. */
  predicate Wanted(bd: Bd)
  {
    bd.ctrl % 0x400 == 0 && 14 <= bd.length <= 1518
  }

  function WholeWords(len: U16): nat
  {
    (len + 3) / 4 * 4
  }

  /** Where a piece of n bytes goes: at the data pointer, unless fewer than n bytes are left behind it. */
  function PieceAt(s: Smap, n: nat): nat
  {
    if s.dataPtr + n > 32768 then 0 else s.dataPtr
  }

  /** A frame with an error bit or a bad length, and one for which there is no buffer, is dropped: its descriptor comes
      back as it is but for the empty bit, with one FRAME_DEC, and nothing is submitted or passed on. The data pointer
      goes back to the start all the same if a wanted frame did not fit behind it. */
  lemma {:induction false} HandleRxDrops(s: Smap, granted: bool)
    requires var bd := s.bd[s.rxIndex]; !Wanted(bd) || !granted
    ensures var d, bd, t := s.rxIndex, s.bd[s.rxIndex], HandleRx(s, granted);
            t == s.(bd := s.bd[d := Bd(0x8000, bd.length, bd.pointer)], decs := s.decs + 1,
                    dataPtr := if Wanted(bd) then PieceAt(s, WholeWords(bd.length)) else s.dataPtr,
                    rxIndex := if d == 63 then 0 else d + 1, visited := s.visited + 1)
  {
  }

  /** Any other frame gets its piece of the buffer, and its transfer goes to the DMA queue: in whole words, to its
      piece, from the place that its descriptor names. A full queue refuses it; a frame without a block that finds the
      queue idle is passed on within the call; otherwise the descriptor stays out. */
  lemma {:induction false} HandleRxDelivers(s: Smap)
    requires Wanted(s.bd[s.rxIndex])
    ensures var d, bd, t := s.rxIndex, s.bd[s.rxIndex], HandleRx(s, true);
            var n := WholeWords(bd.length);
            var at := PieceAt(s, n);
            var job := Job(s.visited, d, at, bd.length, ReadPlace(bd.pointer));
            && t.pieces == s.pieces + [Piece(at, n, n)] && t.dataPtr == at + n
            && t.rxIndex == (if d == 63 then 0 else d + 1) && t.visited == s.visited + 1
            && t.base == s.base && t.filled == s.filled
            && (if s.queue == [] && n < 128 then
                  && t.queue == [] && t.inputs == s.inputs + [job] && t.decs == s.decs + 1
                  && t.bd == s.bd[d := Bd(0x8000, bd.length, bd.pointer)]
                else
                  && t.queue == (if |s.queue| == 31 then s.queue
                                 else s.queue + [Request(Own(job), s.base + at, n, [])])
                  && t.inputs == s.inputs && t.decs == s.decs && t.bd == s.bd)
  {
    hide Settled, ReadPlace;
    var u, r := Allotted(s), RxTransfer(s.base, Allotment(s));
    BlocksExactBelow8M(r.size);
    SubmitConserves(u.queue, r);
    SubmitCompletes(u.queue, r);
    var o := Submit(u.queue, r);
    if s.queue == [] && r.size < 128 {
      SettleOne(r);
      assert [r][1..] == [];
      assert CompleteAll(u.(queue := []), [r]) == CompleteAll(Complete(u.(queue := []), r), []);
    } else {
      assert o.done == [] && o.queue == if |s.queue| == 31 then s.queue else s.queue + [r];
    }
  }

  /** The register gets the low 16 bits of a remainder that C takes towards zero; that makes no difference to the chip,
      which goes round every 16 KB. A pointer into the chip's receive memory is taken relative to its base. */
  lemma {:induction false} ReadPlaceMeans(pointer: U16)
    ensures ReadPlace(pointer) % 0x4000 == pointer % 0x4000 / 4 * 4
    ensures pointer >= 0x4000 ==> ReadPlace(pointer) < 0x4000
    ensures 0 < pointer < 0x4000 ==> ReadPlace(pointer) >= 0xC000
    ensures pointer == 0 ==> ReadPlace(pointer) == 0
  {
    var x := if pointer >= 0x4000 then (pointer - 0x4000) % 0x4000 else if pointer == 0 then 0 else pointer + 0xC000;
    assert ReadPlace(pointer) == x / 4 * 4;
    hide ReadPlace;
    assert x % 0x4000 == pointer % 0x4000;
    WordsInLap(x);
  }

  lemma {:induction false} WordsInLap(x: nat)
    ensures x / 4 * 4 % 0x4000 == x % 0x4000 / 4 * 4
  {
    var q, r := x / 0x4000, x % 0x4000;
    assert x / 4 == q * 0x1000 + r / 4;
  }

  /** A completed transfer gives back the descriptor that it was for, with one FRAME_DEC, and passes its frame on. */
  lemma {:induction false} CompletePassesOn(s: Smap, r: Transfer)
    requires r.payload.Own?
    ensures var d := r.payload.job.index;
            Complete(s, r) == s.(bd := s.bd[d := Bd(0x8000, s.bd[d].length, s.bd[d].pointer)], decs := s.decs + 1,
                                 inputs := s.inputs + [r.payload.job])
  {
  }

  // ---------- dropped frames ----------

  function IsNumber(u: nat): Job -> bool
  {
    (job: Job) => job.number == u
  }

  /** Frame u was visited, and is neither queued nor passed on. */
  predicate Dropped(s: Smap, u: nat)
  {
    && u < s.visited && Legal(s.queue) && Without(s.queue, IsNumber(u))
    && forall i | 0 <= i < |s.inputs| :: s.inputs[i].number != u
  }

  predicate Possibly(s: Smap, m: Move)
  {
    (m.Stores? ==> NextFree(s)) && (m.Submits? ==> Foreign([m.r]))
  }

  predicate AnyMoves(s: Smap, ms: seq<Move>, t: Smap)
    decreases |ms|
  {
    if ms == [] then s == t else Possibly(s, ms[0]) && AnyMoves(Moved(s, ms[0]), ms[1..], t)
  }

  lemma {:induction false} CompleteAllDropped(s: Smap, rs: seq<Transfer>, u: nat)
    requires Dropped(s, u) && Without(rs, IsNumber(u))
    ensures Dropped(CompleteAll(s, rs), u)
    decreases |rs|
  {
    hide Legal;
    if rs != [] {
      assert Without(rs[1..], IsNumber(u));
      CompleteAllDropped(Complete(s, rs[0]), rs[1..], u);
    }
  }

  lemma {:induction false} TransferDropped(s: Smap, r: Transfer, u: nat)
    requires Dropped(s, u) && Legal([r]) && Without([r], IsNumber(u))
    ensures Dropped(DmaTransfer(s, r), u)
  {
    hide Legal, Without;
    SubmitConserves(s.queue, r);
    SubmitWithout(s.queue, r, IsNumber(u));
    CompleteAllDropped(s.(queue := Submit(s.queue, r).queue), Submit(s.queue, r).done, u);
  }

  lemma {:induction false} InterruptDropped(s: Smap, u: nat)
    requires Dropped(s, u)
    ensures Dropped(DmaInterrupt(s), u)
  {
    hide Legal, Without;
    InterruptConserves(s.queue);
    InterruptWithout(s.queue, IsNumber(u));
    CompleteAllDropped(s.(queue := Interrupt(s.queue).queue), Interrupt(s.queue).done, u);
  }

  lemma {:induction false} HandleRxDropped(s: Smap, granted: bool, u: nat)
    requires Dropped(s, u)
    ensures Dropped(HandleRx(s, granted), u)
  {
    hide Legal, DmaTransfer;
    if Delivers(s, granted) {
      var t, r := Allotted(s), RxTransfer(s.base, Allotment(s));
      OwnIsLegal(r);
      TransferDropped(t, r, u);
    }
  }

  lemma {:induction false} MovedDropped(s: Smap, m: Move, u: nat)
    requires Dropped(s, u) && Possibly(s, m)
    ensures Dropped(Moved(s, m), u)
  {
    match m {
      case Stores(bd) => hide Legal, Without;
      case Calls(granted) => HandleRxDropped(s, granted, u);
      case Irq => InterruptDropped(s, u);
      case Submits(r) =>
        ForeignIsLegal(r);
        TransferDropped(s, r, u);
    }
  }

  lemma {:induction false} MovesDropped(s: Smap, ms: seq<Move>, t: Smap, u: nat)
    requires Dropped(s, u) && AnyMoves(s, ms, t)
    ensures Dropped(t, u)
    decreases |ms|
  {
    hide Dropped, Moved, Possibly;
    if ms != [] {
      MovedDropped(s, ms[0], u);
      MovesDropped(Moved(s, ms[0]), ms[1..], t, u);
    }
  }

  /** A dropped frame is never passed on, whatever happens then. */
  lemma {:induction false} DroppedForGood(s: Smap, granted: bool, ms: seq<Move>, t: Smap)
    requires Inv(s) && s.visited < s.filled && (!Wanted(s.bd[s.rxIndex]) || !granted)
    requires AnyMoves(HandleRx(s, granted), ms, t)
    ensures forall i | 0 <= i < |t.inputs| :: t.inputs[i].number != s.visited
  {
    NobodyHas(s);
    HandleRxDrops(s, granted);
    OnlyNumber(s.queue, s.rxIndex, s.visited);
    hide Inv, HandleRx, AnyMoves;
    MovesDropped(HandleRx(s, granted), ms, t, s.visited);
  }

  lemma {:induction false} OnlyNumber(q: Queue, d: Index, u: nat)
    requires Without(q, IsFor(d, u))
    ensures Without(q, IsNumber(u))
  {
    forall i | 0 <= i < |q| && q[i].payload.Own?
      ensures !IsNumber(u)(q[i].payload.job)
    {
      assert !IsFor(d, u)(q[i].payload.job);
    }
  }
}
