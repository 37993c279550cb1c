/** One client's share of the DMA queue. Its own requests have no follow-ups; the other clients do what they like
    as long as they submit no request in its name. */
module DmaShare {
  import opened DmaQueue

  datatype Payload<T> = Own(job: T) | Other

  type Shared<T> = Request<Payload<T>>

  /** Requests of other clients, whose follow-ups are again theirs. */
  predicate Foreign<T>(rs: seq<Shared<T>>)
  {
    forall i | 0 <= i < |rs| :: rs[i].payload.Other? && Foreign(rs[i].followUps)
  }

  predicate Legal<T>(rs: seq<Shared<T>>)
  {
    forall i | 0 <= i < |rs| :: if rs[i].payload.Own? then rs[i].followUps == [] else Foreign(rs[i].followUps)
  }

  /** The client's own requests, in order. */
  function Share<T>(rs: seq<Shared<T>>): seq<Shared<T>>
  {
    if rs == [] then [] else (if rs[0].payload.Own? then [rs[0]] else []) + Share(rs[1..])
  }

  lemma {:induction false} ShareAppend<T>(a: seq<Shared<T>>, b: seq<Shared<T>>)
    ensures Share(a + b) == Share(a) + Share(b)
  {
    if a == [] {
      assert a + b == b;
    } else {
      ShareAppend(a[1..], b);
      var head := if a[0].payload.Own? then [a[0]] else [];
      assert (a + b)[0] == a[0] && (a + b)[1..] == a[1..] + b;
      assert head + (Share(a[1..]) + Share(b)) == (head + Share(a[1..])) + Share(b);
    }
  }

  lemma {:induction false} ForeignHasNoShare<T>(rs: seq<Shared<T>>)
    requires Foreign(rs)
    ensures Share(rs) == []
  {
    if rs != [] { ForeignHasNoShare(rs[1..]); }
  }

  lemma {:induction false} FitIsForeign<T>(q: seq<Shared<T>>)
    requires 0 < |q| < SLOTS && Legal(q)
    ensures var fit := Fit(q, q[0].followUps); Share(fit) == [] && Legal((q + fit)[1..])
  {
    assert Foreign(q[0].followUps);
    ForeignHasNoShare(Fit(q, q[0].followUps));
  }

  /** Whatever other clients do from their callbacks, they add nothing to the client's share. */
  lemma {:induction false} SettleIsForeign<T>(q: seq<Shared<T>>)
    requires |q| < SLOTS && Legal(q)
    ensures var o := Settle(q); Share(o.accepted) == [] && Legal(o.queue)
    decreases Weight(q)
  {
    if q != [] && Blocks(q[0].size) == 0 {
      var fit := Fit(q, q[0].followUps);
      FitIsForeign(q);
      FitWeight(q);
      SettleIsForeign((q + fit)[1..]);
      ShareAppend(fit, Settle((q + fit)[1..]).accepted);
    }
  }

  lemma {:induction false} InterruptIsForeign<T>(q: seq<Shared<T>>)
    requires |q| < SLOTS && Legal(q)
    ensures var o := Interrupt(q); Share(o.done + o.queue) == Share(q) && Legal(o.queue)
  {
    InterruptConserves(q);
    var o := Interrupt(q);
    if q != [] {
      var fit := Fit(q, q[0].followUps);
      FitIsForeign(q);
      SettleIsForeign((q + fit)[1..]);
      ShareAppend(fit, Settle((q + fit)[1..]).accepted);
    }
    ShareAppend(q, o.accepted);
  }

  lemma {:induction false} SubmitIsForeign<T>(q: seq<Shared<T>>, r: Shared<T>)
    requires Settled(q) && Legal(q) && Legal([r]) && |q| < SLOTS - 1
    ensures var o := Submit(q, r); Share(o.done + o.queue) == Share(q) + Share([r]) && Legal(o.queue)
  {
    SubmitConserves(q, r);
    var o := Submit(q, r);
    SettleIsForeign([r]);
    ShareAppend([r], Settle([r]).accepted);
    ShareAppend(q, o.accepted);
  }

  lemma {:induction false} LegalAppend<T>(a: seq<Shared<T>>, b: seq<Shared<T>>)
    requires Legal(a) && Legal(b)
    ensures Legal(a + b)
  {
  }

  lemma {:induction false} ForeignIsLegal<T>(r: Shared<T>)
    requires Foreign([r])
    ensures Legal([r]) && Share([r]) == []
  {
    ForeignHasNoShare([r]);
  }

  lemma {:induction false} OwnIsLegal<T>(r: Shared<T>)
    requires r.payload.Own? && r.followUps == []
    ensures Legal([r]) && Share([r]) == [r]
  {
    assert Share<T>([]) == [];
  }

  /** A request of the client's own is queued or completed, unless the queue is full. */
  lemma {:induction false} SubmitShares<T>(q: seq<Shared<T>>, r: Shared<T>)
    requires Settled(q) && Legal(q) && r.payload.Own? && r.followUps == []
    ensures var o := Submit(q, r);
            Legal(o.queue) && |Share(o.done)| + |Share(o.queue)| == |Share(q)| + if |q| < SLOTS - 1 then 1 else 0
  {
    var o := Submit(q, r);
    if |q| < SLOTS - 1 {
      OwnIsLegal(r);
      SubmitIsForeign(q, r);
      ShareAppend(o.done, o.queue);
      hide Share, Legal, Submit;
    } else {
      SubmitConserves(q, r);
    }
  }

  // ---------- jobs that are not there ----------

  /** None of the client's own requests is for a job of the given kind. */
  predicate Without<T>(rs: seq<Shared<T>>, kind: T -> bool)
  {
    forall i | 0 <= i < |rs| && rs[i].payload.Own? :: !kind(rs[i].payload.job)
  }

  lemma {:induction false} WithoutAppend<T>(a: seq<Shared<T>>, b: seq<Shared<T>>, kind: T -> bool)
    ensures Without(a + b, kind) <==> Without(a, kind) && Without(b, kind)
  {
    assert forall i | 0 <= i < |a| :: (a + b)[i] == a[i];
    assert forall i | 0 <= i < |b| :: (a + b)[|a| + i] == b[i];
  }

  lemma {:induction false} WithoutInShare<T>(rs: seq<Shared<T>>, kind: T -> bool)
    ensures Without(rs, kind) <==> Without(Share(rs), kind)
  {
    if rs != [] {
      WithoutInShare(rs[1..], kind);
      assert rs == [rs[0]] + rs[1..];
      WithoutAppend([rs[0]], rs[1..], kind);
      WithoutAppend(if rs[0].payload.Own? then [rs[0]] else [], Share(rs[1..]), kind);
    }
  }

  /** No step of the queue brings such a job about. */
  lemma {:induction false} InterruptWithout<T>(q: seq<Shared<T>>, kind: T -> bool)
    requires |q| < SLOTS && Legal(q) && Without(q, kind)
    ensures var o := Interrupt(q); Legal(o.queue) && Without(o.done, kind) && Without(o.queue, kind)
  {
    hide Legal, Without, Share;
    InterruptIsForeign(q);
    var o := Interrupt(q);
    WithoutInShare(q, kind);
    WithoutInShare(o.done + o.queue, kind);
    WithoutAppend(o.done, o.queue, kind);
  }

  lemma {:induction false} SubmitWithout<T>(q: seq<Shared<T>>, r: Shared<T>, kind: T -> bool)
    requires Settled(q) && Legal(q) && Legal([r]) && Without(q, kind) && Without([r], kind)
    ensures var o := Submit(q, r); Legal(o.queue) && Without(o.done, kind) && Without(o.queue, kind)
  {
    var o := Submit(q, r);
    if |q| < SLOTS - 1 {
      hide Legal, Without, Share;
      SubmitIsForeign(q, r);
      WithoutInShare(q, kind);
      WithoutInShare([r], kind);
      WithoutAppend(Share(q), Share([r]), kind);
      WithoutInShare(o.done + o.queue, kind);
      WithoutAppend(o.done, o.queue, kind);
    }
  }
}
