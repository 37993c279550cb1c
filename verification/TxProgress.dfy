/** Every frame that was given to the DMA queue can still be published and its owner called back: the engine can finish
    what it has begun, and its interrupts empty the queue. */
module TxProgress {
  import opened DmaQueue
  import opened DmaShare
  import opened SmapBd
  import opened SmapTx
  import opened TxRing
  import opened TxInvariant
  import opened TxPipeline
  import TxFailures

  /** The head of the queue is the transmitter's. */
  predicate Sending(s: Smap)
  {
    s.queue != [] && s.queue[0].payload.Own?
  }

  /** As long as blocks are left the engine has a word to move. */
  lemma {:induction false} EngineGoesOn(s: Smap)
    requires Inv(s) && !EngineDone(s)
    ensures CanMove(s) && EngineMove(s).moved == s.moved + 1
    ensures EngineMove(s).queue == s.queue && s.moved < Moved(s.queue)
  {
    hide PtrOf, Window, Poke, Stream, Pos, Owner, Blocks, Foreign, Legal, Described;
    assert [] + s.queue == s.queue;
    HeadIsNext(s.queue, s.sent, s.published);
    FrameSize(s.sent[s.published]);
  }

  /** Words moved by the engine, up to its interrupt. */
  lemma {:induction false} EngineFinishes(p: Pipe) returns (events: seq<Event>, q: Pipe)
    requires PipeInv(p)
    ensures Run(p, events, q) && Internal(events)
    ensures EngineDone(q.smap) && SameOutside(p, q) && q.smap.queue == p.smap.queue
    decreases Moved(p.smap.queue) - p.smap.moved
  {
    hide Inv, Accounted, EngineDone, EngineMove, CanMove, Moved;
    if EngineDone(p.smap) {
      events, q := [], p;
    } else {
      EngineGoesOn(p.smap);
      StepKeeps(p, EngineStep);
      MoveIsInside(p);
      var more;
      more, q := EngineFinishes(Step(p, EngineStep));
      events := [EngineStep] + more;
      assert events[1..] == more;
    }
  }

  /** Only the engine and its interrupts are involved. */
  predicate Internal(events: seq<Event>)
  {
    forall i | 0 <= i < |events| :: events[i] == EngineStep || events[i] == DmaIrq
  }

  /** Nothing outside the DMA queue and the chip is different. */
  predicate SameOutside(p: Pipe, q: Pipe)
  {
    q.smap.sent == p.smap.sent && q.reqs == p.reqs && q.failed == p.failed && q.refused == p.refused
    && q.dropped == p.dropped && q.submitted == p.submitted && q.smap.released == p.smap.released
  }

  lemma {:induction false} MoveIsInside(p: Pipe)
    requires CanMove(p.smap)
    ensures SameOutside(p, Step(p, EngineStep))
  {
  }

  /** From every state the DMA queue can be emptied by the engine and its interrupts alone, whatever the callbacks of
      other clients submit. */
  lemma {:induction false} QueueEmpties(p: Pipe) returns (events: seq<Event>, q: Pipe)
    requires PipeInv(p)
    ensures Run(p, events, q) && Internal(events)
    ensures PipeInv(q) && q.smap.queue == [] && SameOutside(p, q)
    decreases Weight(p.smap.queue)
  {
    hide PipeInv, EngineDone, Step, SameOutside;
    if p.smap.queue == [] {
      events, q := [], p;
      SameAsItself(p);
    } else {
      var first, r := EngineFinishes(p);
      RunKeeps(p, first, r);
      InterruptShrinks(p.smap.queue);
      InterruptIsInside(r);
      StepKeeps(r, DmaIrq);
      var more;
      more, q := QueueEmpties(Step(r, DmaIrq));
      events := first + [DmaIrq] + more;
      RunJoin(p, first, r, [DmaIrq] + more, q);
      assert ([DmaIrq] + more)[1..] == more;
      assert first + ([DmaIrq] + more) == events;
      OutsideJoins(p, r, Step(r, DmaIrq));
      OutsideJoins(p, Step(r, DmaIrq), q);
    }
  }

  lemma {:induction false} SameAsItself(p: Pipe)
    ensures SameOutside(p, p)
  {
  }

  lemma {:induction false} OutsideJoins(p: Pipe, q: Pipe, r: Pipe)
    requires SameOutside(p, q) && SameOutside(q, r)
    ensures SameOutside(p, r)
  {
  }

  lemma {:induction false} InterruptIsInside(p: Pipe)
    requires PipeInv(p) && EngineDone(p.smap) && p.smap.queue != []
    ensures Enabled(p, DmaIrq) && SameOutside(p, Step(p, DmaIrq))
    ensures Step(p, DmaIrq).smap.queue == Interrupt(p.smap.queue).queue
  {
    var s, o := p.smap, Interrupt(p.smap.queue);
    InterruptConserves(s.queue);
    CompleteAllFrame(s.(queue := o.queue), o.done);
    hide Inv, Accounted, CompleteAll, Interrupt, EngineDone;
  }

  lemma {:induction false} CompleteAllFrame(s: Smap, rs: seq<Transfer>)
    ensures var t := CompleteAll(s, rs); t.sent == s.sent && t.released == s.released && t.queue == s.queue
    decreases |rs|
  {
    if rs != [] { CompleteAllFrame(Complete(s, rs[0]), rs[1..]); }
  }

  lemma {:induction false} RunJoin(p: Pipe, a: seq<Event>, q: Pipe, b: seq<Event>, r: Pipe)
    requires Run(p, a, q) && Run(q, b, r)
    ensures Run(p, a + b, r)
    decreases |a|
  {
    hide Step;
    if a == [] {
      assert a + b == b;
    } else {
      assert (a + b)[0] == a[0] && (a + b)[1..] == a[1..] + b;
      RunJoin(Step(p, a[0]), a[1..], q, b, r);
    }
  }

  /** No frame that was given away is stuck: from every reachable state there is a run, of the engine and its interrupts
      alone, after which the owner of every one of them has been called back, and its descriptor is the chip's unless it
      was released before. */
  lemma {:induction false} EveryFrameCanBePublished(mem: Memory, before: seq<Event>, p: Pipe)
    returns (events: seq<Event>, q: Pipe)
    requires Run(Start(mem), before, p)
    ensures Run(p, events, q) && Internal(events)
    ensures q.smap.sent == p.smap.sent && q.smap.published == |p.smap.sent| && q.smap.acked == Ids(p.smap.sent)
  {
    hide PipeInv, Run, Internal;
    StartEstablishes(mem);
    RunKeeps(Start(mem), before, p);
    events, q := QueueEmpties(p);
    AllPublishedWhenEmpty(q);
  }

  lemma {:induction false} AllPublishedWhenEmpty(q: Pipe)
    requires PipeInv(q) && q.smap.queue == []
    ensures q.smap.published == |q.smap.sent| && q.smap.acked == Ids(q.smap.sent)
  {
    hide Inv, Accounted, Ids;
    QueueFollowsRing(q.smap);
    TxFailures.InvAcked(q.smap);
    assert Share<Job>([]) == [];
    assert q.smap.sent[..|q.smap.sent|] == q.smap.sent;
  }
}
