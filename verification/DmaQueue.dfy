/** The dev9 DMA queue as a value: what dev9_dma.c promises its clients, without slots and indices.

    A request carries the follow-ups that its done callback will submit. They form a finite tree, which is
    what makes the recursion between completing one transfer and starting the next one end. */
module DmaQueue {

  type U32 = x: int | 0 <= x < 0x1_0000_0000

  const SLOTS := 32

  datatype Request<T> = Request(payload: T, addr: U32, size: U32, followUps: seq<Request<T>>)

  /** What one step of the queue did: the requests completed, the queue left behind, and the requests
      accepted on the way, each in order. */
  datatype Outcome<T> = Outcome(done: seq<Request<T>>, queue: seq<Request<T>>, accepted: seq<Request<T>>)

  // ---------- the block count register ----------

  /** (size >> 7) << 16 | 32 in 32-bit arithmetic: the block count above, the block length in words below. */
  function Bcr(size: U32): U32
  {
    size / 128 * 0x1_0000 % 0x1_0000_0000 + 32
  }

  function Blocks(size: U32): nat
  {
    Bcr(size) / 0x1_0000
  }

  /** The register has 16 bits for the count, so it is exact up to 8 megabytes and no further. The lower half is the
      length of a block, 32 words of four bytes. */
  lemma {:induction false} BlocksExactBelow8M(size: U32)
    ensures Bcr(size) % 0x1_0000 * 4 == 128
    ensures Blocks(size) == size / 128 % 0x1_0000
    ensures Blocks(size) == size / 128 <==> size < 0x80_0000
  {
    var n := size / 128;
    assert n * 0x1_0000 % 0x1_0000_0000 == n % 0x1_0000 * 0x1_0000;
  }

  // ---------- steps ----------

  /** The number of transfers a list of requests can ever cause. */
  function Weight<T>(rs: seq<Request<T>>): nat
  {
    if rs == [] then 0 else 1 + Weight(rs[0].followUps) + Weight(rs[1..])
  }

  lemma {:induction false} WeightAppend<T>(a: seq<Request<T>>, b: seq<Request<T>>)
    ensures Weight(a + b) == Weight(a) + Weight(b)
  {
    if a == [] {
      assert a + b == b;
    } else {
      WeightAppend(a[1..], b);
      assert (a + b)[1..] == a[1..] + b;
    }
  }

  /** The follow-ups that find a slot: the ring holds at most 31 transfers. */
  function Fit<T>(q: seq<Request<T>>, rs: seq<Request<T>>): seq<Request<T>>
    requires |q| < SLOTS
  {
    if |q| + |rs| < SLOTS then rs else rs[..SLOTS - 1 - |q|]
  }

  lemma {:induction false} FitWeight<T>(q: seq<Request<T>>)
    requires 0 < |q| < SLOTS
    ensures Weight((q + Fit(q, q[0].followUps))[1..]) < Weight(q)
  {
    var fs := q[0].followUps;
    var fit := Fit(q, fs);
    assert fs == fit + fs[|fit|..];
    WeightAppend(fit, fs[|fit|..]);
    WeightAppend(q[1..], fit);
    assert (q + fit)[1..] == q[1..] + fit;
    assert Weight(q) == 1 + Weight(fs) + Weight(q[1..]);
  }

  /** Completes the head: its callback submits, the head leaves, the next transfer is started. */
  function Finish<T>(q: seq<Request<T>>): Outcome<T>
    requires 0 < |q| < SLOTS
    decreases Weight(q), 0
  {
    var fit := Fit(q, q[0].followUps);
    FitWeight(q);
    var o := Settle((q + fit)[1..]);
    Outcome([q[0]] + o.done, o.queue, fit + o.accepted)
  }

  /** Starts the head if there is one; a head without a full block completes at once. */
  function Settle<T>(q: seq<Request<T>>): Outcome<T>
    requires |q| < SLOTS
    decreases Weight(q), 1
  {
    if q == [] || Blocks(q[0].size) > 0 then Outcome([], q, []) else Finish(q)
  }

  /** A call of dev9_dma_transfer. */
  function Submit<T>(q: seq<Request<T>>, r: Request<T>): Outcome<T>
    requires |q| < SLOTS
  {
    if |q| == SLOTS - 1 then Outcome([], q, [])
    else if q == [] then var o := Settle([r]); Outcome(o.done, o.queue, [r] + o.accepted)
    else Outcome([], q + [r], [r])
  }

  /** A DMA interrupt. */
  function Interrupt<T>(q: seq<Request<T>>): Outcome<T>
    requires |q| < SLOTS
  {
    if q == [] then Outcome([], [], []) else Finish(q)
  }

  // ---------- laws ----------

  predicate Settled<T>(q: seq<Request<T>>)
  {
    |q| < SLOTS && (q != [] ==> Blocks(q[0].size) > 0)
  }

  predicate Instant<T>(rs: seq<Request<T>>)
  {
    forall i | 0 <= i < |rs| :: Blocks(rs[i].size) == 0
  }

  /** Completing h in front of rest, where q and fit make up h and rest, conserves what rest conserves. */
  lemma {:induction false} CompletionConserves<T>(h: Request<T>, q: seq<Request<T>>, fit: seq<Request<T>>,
                                                  o: Outcome<T>)
    requires q != [] && q[0] == h
    requires o.done + o.queue == (q + fit)[1..] + o.accepted
    ensures ([h] + o.done) + o.queue == q + (fit + o.accepted)
  {
    assert ([h] + o.done) + o.queue == [h] + (o.done + o.queue);
    assert q + (fit + o.accepted) == [h] + ((q + fit)[1..] + o.accepted);
  }

  /** Nothing is lost, duplicated or reordered, whatever the callbacks submit. */
  lemma {:induction false} SettleConserves<T>(q: seq<Request<T>>)
    requires |q| < SLOTS
    ensures var o := Settle(q); o.done + o.queue == q + o.accepted && Settled(o.queue) && Instant(o.done)
    decreases Weight(q)
  {
    if q != [] && Blocks(q[0].size) == 0 {
      var fit := Fit(q, q[0].followUps);
      var rest := (q + fit)[1..];
      FitWeight(q);
      SettleConserves(rest);
      CompletionConserves(q[0], q, fit, Settle(rest));
    }
  }

  lemma {:induction false} InterruptConserves<T>(q: seq<Request<T>>)
    requires |q| < SLOTS
    ensures var o := Interrupt(q);
            && o.done + o.queue == q + o.accepted
            && Settled(o.queue)
            && (q != [] ==> o.done != [] && o.done[0] == q[0] && Instant(o.done[1..]))
  {
    if q != [] {
      var fit := Fit(q, q[0].followUps);
      var rest := (q + fit)[1..];
      SettleConserves(rest);
      CompletionConserves(q[0], q, fit, Settle(rest));
    }
  }

  lemma {:induction false} SubmitConserves<T>(q: seq<Request<T>>, r: Request<T>)
    requires Settled(q)
    ensures var o := Submit(q, r);
            && o.done + o.queue == q + o.accepted
            && Settled(o.queue)
            && Instant(o.done)
            && (|q| < SLOTS - 1 ==> o.accepted != [] && o.accepted[0] == r)
            && (|q| == SLOTS - 1 ==> o == Outcome([], q, []))
  {
    SettleConserves([r]);
    var o := Settle([r]);
    assert q == [] ==> q + ([r] + o.accepted) == [r] + o.accepted;
    assert [] + (q + [r]) == q + [r];
    assert [] + q == q + [];
  }

  // ---------- the laws leave no choice ----------

  /** What the callbacks of completed transfers get into a queue of n, which loses one transfer with each of them: as
      many of their follow-ups as there are slots, in order. */
  function Admitted<T>(n: int, done: seq<Request<T>>): seq<Request<T>>
    decreases |done|
  {
    if done == [] then []
    else
      var fs := done[0].followUps;
      var k := if n + |fs| < SLOTS then |fs| else if n < SLOTS then SLOTS - 1 - n else 0;
      fs[..k] + Admitted(n + k - 1, done[1..])
  }

  /** The laws of completing: nothing is lost, repeated or reordered; what is accepted is what the callbacks submit, as
      far as there is room; and it goes on just as long as the head has no full block. first is whether the head
      completes in any case. */
  ghost predicate Lawful<T>(q: seq<Request<T>>, o: Outcome<T>, first: bool)
  {
    && o.done + o.queue == q + o.accepted
    && o.accepted == Admitted(|q|, o.done)
    && Settled(o.queue)
    && (if first then o.done != [] && Instant(o.done[1..]) else Instant(o.done))
  }

  lemma {:induction false} SettleIsLawful<T>(q: seq<Request<T>>)
    requires |q| < SLOTS
    ensures Lawful(q, Settle(q), false)
    decreases Weight(q)
  {
    SettleConserves(q);
    if q != [] && Blocks(q[0].size) == 0 {
      var rest := (q + Fit(q, q[0].followUps))[1..];
      FitWeight(q);
      SettleIsLawful(rest);
      FinishAdmits(q, Settle(rest));
    }
  }

  /** What Finish makes of the outcome for the rest of the queue. */
  lemma {:induction false} FinishAdmits<T>(q: seq<Request<T>>, o: Outcome<T>)
    requires 0 < |q| < SLOTS
    requires var fit := Fit(q, q[0].followUps); o.accepted == Admitted(|q + fit| - 1, o.done)
    ensures Fit(q, q[0].followUps) + o.accepted == Admitted(|q|, [q[0]] + o.done)
  {
    assert ([q[0]] + o.done)[1..] == o.done;
    assert q[0].followUps[..|q[0].followUps|] == q[0].followUps;
  }

  lemma {:induction false} InterruptIsLawful<T>(q: seq<Request<T>>)
    requires 0 < |q| < SLOTS
    ensures Lawful(q, Interrupt(q), true)
  {
    InterruptConserves(q);
    var rest := (q + Fit(q, q[0].followUps))[1..];
    SettleIsLawful(rest);
    FinishAdmits(q, Settle(rest));
  }

  /** Follow-ups weigh less than the transfers that cause them. */
  lemma {:induction false} AdmittedWeight<T>(n: int, done: seq<Request<T>>)
    ensures Weight(Admitted(n, done)) + |done| <= Weight(done)
    decreases |done|
  {
    if done != [] {
      var fs := done[0].followUps;
      var k := if n + |fs| < SLOTS then |fs| else if n < SLOTS then SLOTS - 1 - n else 0;
      var more := Admitted(n + k - 1, done[1..]);
      AdmittedWeight(n + k - 1, done[1..]);
      assert Admitted(n, done) == fs[..k] + more;
      hide Admitted;
      WeightOfPart(fs, k);
      WeightAppend(fs[..k], more);
    }
  }

  lemma {:induction false} WeightOfPart<T>(rs: seq<Request<T>>, k: nat)
    requires k <= |rs|
    ensures Weight(rs[..k]) <= Weight(rs)
  {
    assert rs == rs[..k] + rs[k..];
    WeightAppend(rs[..k], rs[k..]);
  }

  /** No other outcome obeys the laws. */
  lemma {:induction false} SettleIsOnly<T>(q: seq<Request<T>>, o: Outcome<T>)
    requires |q| < SLOTS && Lawful(q, o, false)
    ensures o == Settle(q)
    decreases |o.done|
  {
    if o.done == [] {
      assert [] + o.queue == o.queue && q + [] == q;
    } else {
      NothingFromNothing(q, o);
      assert (o.done + o.queue)[0] == (q + o.accepted)[0];
      RestIsLawful(q, o);
      SettleIsOnly((q + Fit(q, q[0].followUps))[1..], Later(q, o));
    }
  }

  lemma {:induction false} NothingFromNothing<T>(q: seq<Request<T>>, o: Outcome<T>)
    requires o.done + o.queue == q + o.accepted && o.accepted == Admitted(|q|, o.done) && o.done != []
    ensures q != [] && o.done[0] == q[0]
  {
    AdmittedWeight(|q|, o.done);
    WeightAppend(o.done, o.queue);
    assert [] + o.accepted == o.accepted;
    assert (o.done + o.queue)[0] == o.done[0];
  }

  /** The outcome without its first completion. */
  function Later<T>(q: seq<Request<T>>, o: Outcome<T>): Outcome<T>
    requires 0 < |q| < SLOTS && o.done != []
  {
    var fit := Fit(q, q[0].followUps);
    Outcome(o.done[1..], o.queue, Admitted(|q + fit| - 1, o.done[1..]))
  }

  lemma {:induction false} RestIsLawful<T>(q: seq<Request<T>>, o: Outcome<T>)
    requires 0 < |q| < SLOTS && o.done != [] && o.done[0] == q[0]
    requires o.done + o.queue == q + o.accepted && o.accepted == Admitted(|q|, o.done)
    requires Settled(o.queue) && Instant(o.done[1..])
    ensures var fit := Fit(q, q[0].followUps);
            Lawful((q + fit)[1..], Later(q, o), false) && o.accepted == fit + Later(q, o).accepted
  {
    hide Blocks, Settled, Weight, Instant;
    var fit := Fit(q, q[0].followUps);
    var more := Admitted(|q + fit| - 1, o.done[1..]);
    AdmittedFirst(q, o.done);
    hide Admitted, Fit;
    ShorterByOne(o.done, o.queue, q, fit, more);
  }

  lemma {:induction false} AdmittedFirst<T>(q: seq<Request<T>>, done: seq<Request<T>>)
    requires 0 < |q| < SLOTS && done != [] && done[0] == q[0]
    ensures var fit := Fit(q, q[0].followUps); Admitted(|q|, done) == fit + Admitted(|q + fit| - 1, done[1..])
  {
    var fs := q[0].followUps;
    assert fs[..|fs|] == fs;
  }

  lemma {:induction false} ShorterByOne<T>(done: seq<Request<T>>, queue: seq<Request<T>>, q: seq<Request<T>>,
                                           fit: seq<Request<T>>, more: seq<Request<T>>)
    requires done != [] && q != [] && done + queue == q + (fit + more)
    ensures done[1..] + queue == (q + fit)[1..] + more
  {
    assert done[1..] + queue == (done + queue)[1..];
    assert (q + (fit + more))[1..] == (q + fit)[1..] + more;
  }

  lemma {:induction false} InterruptIsOnly<T>(q: seq<Request<T>>, o: Outcome<T>)
    requires 0 < |q| < SLOTS && Lawful(q, o, true)
    ensures o == Interrupt(q)
  {
    NothingFromNothing(q, o);
    RestIsLawful(q, o);
    SettleIsOnly((q + Fit(q, q[0].followUps))[1..], Later(q, o));
    assert o.done == [o.done[0]] + o.done[1..];
  }

  /** A submission joins a queue at work, and is settled by an idle one. */
  lemma {:induction false} SubmitIsLawful<T>(q: seq<Request<T>>, r: Request<T>)
    requires |q| < SLOTS - 1
    ensures var o := Submit(q, r);
            if q == [] then
              o.accepted != [] && o.accepted[0] == r && Lawful([r], o.(accepted := o.accepted[1..]), false)
            else
              o == Outcome([], q + [r], [r])
  {
    SettleIsLawful([r]);
    assert ([r] + Settle([r]).accepted)[1..] == Settle([r]).accepted;
  }

  /** The follow-ups of the head are accepted, in order, as far as there is room for them. */
  lemma {:induction false} HeadSubmits<T>(q: seq<Request<T>>)
    requires 0 < |q| < SLOTS
    ensures |q| + |q[0].followUps| < SLOTS ==> q[0].followUps <= Interrupt(q).accepted
    ensures |q| + |q[0].followUps| >= SLOTS ==> q[0].followUps[..SLOTS - 1 - |q|] <= Interrupt(q).accepted
  {
  }

  /** As long as everything finds room, every transfer that the queue can cause is either completed or still to come. */
  lemma {:induction false} SettleLosesNothing<T>(q: seq<Request<T>>)
    requires Weight(q) < SLOTS
    ensures |q| <= Weight(q)
    ensures var o := Settle(q); |o.done| + Weight(o.queue) == Weight(q)
    decreases Weight(q)
  {
    LengthWithinWeight(q);
    if q != [] && Blocks(q[0].size) == 0 {
      AllFits(q);
      SettleLosesNothing((q + q[0].followUps)[1..]);
    }
  }

  lemma {:induction false} AllFits<T>(q: seq<Request<T>>)
    requires Weight(q) < SLOTS && q != []
    ensures |q| < SLOTS && Fit(q, q[0].followUps) == q[0].followUps
    ensures Weight((q + q[0].followUps)[1..]) == Weight(q) - 1
  {
    LengthWithinWeight(q[1..]);
    LengthWithinWeight(q[0].followUps);
    WeightAppend(q[1..], q[0].followUps);
    assert (q + q[0].followUps)[1..] == q[1..] + q[0].followUps;
  }

  lemma {:induction false} InterruptLosesNothing<T>(q: seq<Request<T>>)
    requires q != [] && Weight(q) < SLOTS
    ensures |q| < SLOTS
    ensures var o := Interrupt(q); |o.done| + Weight(o.queue) == Weight(q)
  {
    AllFits(q);
    SettleLosesNothing((q + q[0].followUps)[1..]);
  }

  /** An interrupt leaves fewer transfers that can ever be caused. */
  lemma {:induction false} InterruptShrinks<T>(q: seq<Request<T>>)
    requires 0 < |q| < SLOTS
    ensures Weight(Interrupt(q).queue) < Weight(q)
  {
    FitWeight(q);
    SettleShrinks((q + Fit(q, q[0].followUps))[1..]);
  }

  lemma {:induction false} SettleShrinks<T>(q: seq<Request<T>>)
    requires |q| < SLOTS
    ensures Weight(Settle(q).queue) <= Weight(q)
    decreases Weight(q)
  {
    if q != [] && Blocks(q[0].size) == 0 {
      FitWeight(q);
      SettleShrinks((q + Fit(q, q[0].followUps))[1..]);
    }
  }

  /** The transfers that n interrupts complete. */
  function Drained<T>(q: seq<Request<T>>, n: nat): nat
    requires |q| < SLOTS
    decreases n
  {
    InterruptConserves(q);
    if n == 0 then 0 else |Interrupt(q).done| + Drained(Interrupt(q).queue, n - 1)
  }

  /** As long as everything finds room, interrupts complete every transfer that can be caused, at any depth. */
  lemma {:induction false} InterruptsCompleteAll<T>(q: seq<Request<T>>, n: nat)
    requires n >= Weight(q) && Weight(q) < SLOTS
    ensures |q| < SLOTS && Drained(q, n) == Weight(q)
    decreases n
  {
    LengthWithinWeight(q);
    if q != [] {
      InterruptLosesNothing(q);
      InterruptConserves(q);
      InterruptsCompleteAll(Interrupt(q).queue, n - 1);
    } else if n > 0 {
      InterruptsCompleteAll(q, n - 1);
    }
  }

  /** A transfer without a full block and without follow-ups, alone in the queue, is over at once. */
  lemma {:induction false} SettleOne<T>(r: Request<T>)
    requires Blocks(r.size) == 0 && r.followUps == []
    ensures Settle([r]) == Outcome([r], [], []) && Submit([], r) == Outcome([r], [], [r])
  {
    assert ([r] + [])[1..] == [];
    assert Settle<T>([]) == Outcome([], [], []);
  }

  /** No address is null, and at every depth a callback submits at most one transfer, and none after a transfer without
      a full block. This firmware's clients are like this, but for disk entries of fewer than 128 bytes. */
  predicate Modest<T>(rs: seq<Request<T>>)
  {
    forall i | 0 <= i < |rs| ::
      && rs[i].addr != 0 && |rs[i].followUps| <= 1 && Modest(rs[i].followUps)
      && (Blocks(rs[i].size) == 0 ==> rs[i].followUps == [])
  }

  lemma {:induction false} ModestSettles<T>(q: seq<Request<T>>)
    requires |q| < SLOTS && forall i | 0 <= i < |q| && Blocks(q[i].size) == 0 :: q[i].followUps == []
    ensures Settle(q).accepted == []
    decreases |q|
  {
    if q != [] && Blocks(q[0].size) == 0 {
      assert (q + [])[1..] == q[1..];
      ModestSettles(q[1..]);
    }
  }

  lemma {:induction false} ModestAppend<T>(a: seq<Request<T>>, b: seq<Request<T>>)
    requires Modest(a) && Modest(b)
    ensures Modest(a + b) && forall k | 0 <= k <= |a + b| :: Modest((a + b)[k..])
  {
  }

  /** The rest of a queue whose requests add up to what was queued and accepted is modest if those are. */
  lemma {:induction false} ModestRest<T>(q: seq<Request<T>>, o: Outcome<T>)
    requires Modest(q) && Modest(o.accepted) && o.done + o.queue == q + o.accepted
    ensures Modest(o.queue)
  {
    hide Modest;
    ModestAppend(q, o.accepted);
    assert o.queue == (q + o.accepted)[|o.done|..];
  }

  /** With such clients no step accepts enough transfers to take a slot twice, and the queue it leaves is again such. */
  lemma {:induction false} ModestInterrupt<T>(q: seq<Request<T>>)
    requires Settled(q) && Modest(q)
    ensures |q| + |Interrupt(q).accepted| <= SLOTS && Modest(Interrupt(q).queue)
  {
    InterruptConserves(q);
    if q != [] {
      var fit := Fit(q, q[0].followUps);
      ModestSettles((q + fit)[1..]);
      assert Interrupt(q).accepted == fit;
    }
    ModestRest(q, Interrupt(q));
  }

  lemma {:induction false} ModestSubmit<T>(q: seq<Request<T>>, r: Request<T>)
    requires Settled(q) && Modest(q) && Modest([r])
    ensures |q| + |Submit(q, r).accepted| <= SLOTS && Modest(Submit(q, r).queue)
  {
    ModestSettles([r]);
    SubmitConserves(q, r);
    ModestRest(q, Submit(q, r));
  }

  /** Whatever the clients do, a step accepts no more transfers than its queue and their follow-ups can ever cause. */
  lemma {:induction false} AcceptsWithinWeight<T>(q: seq<Request<T>>)
    requires |q| < SLOTS
    ensures |q| + |Settle(q).accepted| <= Weight(q) && |q| + |Interrupt(q).accepted| <= Weight(q)
    decreases Weight(q)
  {
    LengthWithinWeight(q);
    if q != [] {
      var fit := Fit(q, q[0].followUps);
      FitWeight(q);
      AcceptsWithinWeight((q + fit)[1..]);
    }
  }

  lemma {:induction false} LengthWithinWeight<T>(rs: seq<Request<T>>)
    ensures |rs| <= Weight(rs)
  {
    if rs != [] { LengthWithinWeight(rs[1..]); }
  }

  /** Slots can be taken twice within one step: 31 transfers are queued, and after the head two transfers
      without a full block complete at once, each submitting one more. */
  lemma {:induction false} SlotTakenTwice<T>(x: Request<T>)
    requires x == Request(x.payload, x.addr, 128, [])
    ensures var again := x.(size := 0, followUps := [x]);
            var q := [x, again, again] + seq(28, _ => x);
            var o := Interrupt(q);
            && Settled(q) && |q| == SLOTS - 1
            && o == Outcome([x, again, again], seq(30, _ => x), [x, x])
            && |q| + |o.accepted| > SLOTS
  {
    var again := x.(size := 0, followUps := [x]);
    var rest := seq(28, _ => x);
    var q4 := seq(30, _ => x);
    var q3 := [again] + (rest + [x]);
    assert Blocks(128) == 1 && Blocks(0) == 0;
    assert Settle(q4) == Outcome([], q4, []);
    assert Settle(q3) == Outcome([again], q4, [x]) by {
      assert (q3 + [x])[1..] == q4;
    }
    var q2 := [again, again] + rest;
    assert Settle(q2) == Outcome([again, again], q4, [x, x]) by {
      assert (q2 + [x])[1..] == q3;
    }
    assert ([x, again, again] + rest + [])[1..] == q2;
  }

  // ---------- runs ----------

  datatype Stimulus<T> = Call(r: Request<T>) | Irq

  /** The queue after a run from power-on, with everything it accepted and completed so far. */
  function After<T>(steps: seq<Stimulus<T>>): (o: Outcome<T>)
    ensures Settled(o.queue)
  {
    if steps == [] then Outcome([], [], [])
    else
      var before := After(steps[..|steps| - 1]);
      var last := steps[|steps| - 1];
      var o := if last.Irq? then Interrupt(before.queue) else Submit(before.queue, last.r);
      assert Settled(o.queue) by {
        InterruptConserves(before.queue);
        if last.Call? { SubmitConserves(before.queue, last.r); }
      }
      Outcome(before.done + o.done, o.queue, before.accepted + o.accepted)
  }

  lemma {:induction false} Chain<T>(before: Outcome<T>, o: Outcome<T>)
    requires before.done + before.queue == before.accepted
    requires o.done + o.queue == before.queue + o.accepted
    ensures (before.done + o.done) + o.queue == before.accepted + o.accepted
  {
    assert (before.done + o.done) + o.queue == before.done + (before.queue + o.accepted);
  }

  /** Over every run the completions are exactly the accepted requests in order of acceptance, each once, and
      the rest is still queued behind a head that the engine can work on. */
  lemma {:induction false} RunIsFifo<T>(steps: seq<Stimulus<T>>)
    ensures var o := After(steps); o.done + o.queue == o.accepted
  {
    if steps != [] {
      var before := After(steps[..|steps| - 1]);
      var last := steps[|steps| - 1];
      RunIsFifo(steps[..|steps| - 1]);
      if last.Irq? {
        InterruptConserves(before.queue);
        Chain(before, Interrupt(before.queue));
      } else {
        SubmitConserves(before.queue, last.r);
        Chain(before, Submit(before.queue, last.r));
      }
    }
  }

  // ---------- runs that the ring can follow ----------

  predicate NonNull<T>(rs: seq<Request<T>>)
  {
    forall i | 0 <= i < |rs| :: rs[i].addr != 0
  }

  /** The step leaves no null address behind, and takes no slot again that a transfer still needs; see
      Dev9Dma.MarkedIff. */
  predicate StepFits<T>(q: seq<Request<T>>, o: Outcome<T>)
  {
    NonNull(o.queue) && (o.queue == [] || |q| + |o.accepted| <= SLOTS)
  }

  /** Every step of the run is like that. */
  predicate Fitting<T>(steps: seq<Stimulus<T>>)
  {
    steps != [] ==>
      var before, last := steps[..|steps| - 1], steps[|steps| - 1];
      var q := After(before).queue;
      Fitting(before) && StepFits(q, if last.Irq? then Interrupt(q) else Submit(q, last.r))
  }

  /** Modest clients cause no other runs. */
  lemma {:induction false} ModestFits<T>(steps: seq<Stimulus<T>>)
    requires forall i | 0 <= i < |steps| && steps[i].Call? :: Modest([steps[i].r])
    ensures Fitting(steps) && Modest(After(steps).queue)
  {
    if steps != [] {
      var before, last := steps[..|steps| - 1], steps[|steps| - 1];
      ModestFits(before);
      if last.Irq? {
        ModestInterrupt(After(before).queue);
      } else {
        ModestSubmit(After(before).queue, last.r);
      }
    }
  }
}
