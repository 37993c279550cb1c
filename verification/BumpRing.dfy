/** The "bump and reset" buffers of the firmware: a pointer that moves up by what is handed out and goes back to
    the start when what is asked for does not fit. The PATA data buffer, the SMAP receive buffer and the receive
    buffer of the EE are all of this kind. */
module BumpRing {

  /** A piece of the buffer: size bytes from at on, after which the pointer moves up by stride. */
  datatype Piece = Piece(at: nat, size: nat, stride: nat)

  /** The pointer, or the start when fewer than n bytes are left. */
  function Place(cap: int, ptr: int, n: int): int
  {
    if cap - ptr < n then 0 else ptr
  }

  /** The pointer before piece k. */
  function Ptr(start: nat, ps: seq<Piece>, k: nat): nat
    requires k <= |ps|
  {
    if k == 0 then start else ps[k - 1].at + ps[k - 1].stride
  }

  /** The pieces were handed out one after the other, each inside the buffer and at the pointer, or at the start
      when fewer than m bytes were left; none takes more than m. */
  predicate HandedOut(cap: nat, m: nat, start: nat, ps: seq<Piece>)
  {
    forall k | 0 <= k < |ps| :: Fits(cap, m, Ptr(start, ps, k), ps[k])
  }

  predicate Fits(cap: nat, m: nat, ptr: nat, p: Piece)
  {
    && p.size <= p.stride <= m
    && p.at + p.size <= cap
    && (p.at == ptr || (p.at == 0 && cap - ptr < m))
  }

  lemma {:induction false} Each(cap: nat, m: nat, start: nat, ps: seq<Piece>, k: nat)
    requires HandedOut(cap, m, start, ps) && k < |ps|
    ensures Fits(cap, m, Ptr(start, ps, k), ps[k])
  {
  }

  lemma {:induction false} OneMore(cap: nat, m: nat, start: nat, ps: seq<Piece>, p: Piece)
    requires HandedOut(cap, m, start, ps) && Fits(cap, m, Ptr(start, ps, |ps|), p)
    ensures HandedOut(cap, m, start, ps + [p])
  {
    hide Fits;
    var qs := ps + [p];
    forall k | 0 <= k < |qs|
      ensures Fits(cap, m, Ptr(start, qs, k), qs[k])
    {
      assert Ptr(start, qs, k) == Ptr(start, ps, k);
    }
  }

  lemma {:induction false} OneBefore(cap: nat, m: nat, start: nat, p: Piece, ps: seq<Piece>)
    requires Fits(cap, m, start, p) && HandedOut(cap, m, p.at + p.stride, ps)
    ensures HandedOut(cap, m, start, [p] + ps)
  {
    hide Fits;
    var qs := [p] + ps;
    forall k | 0 <= k < |qs|
      ensures Fits(cap, m, Ptr(start, qs, k), qs[k])
    {
      if k > 0 { assert qs[k] == ps[k - 1] && Ptr(start, qs, k) == Ptr(p.at + p.stride, ps, k - 1); }
    }
  }

  /** What pieces j to k have moved the pointer by. */
  function Total(ps: seq<Piece>, j: nat, k: nat): nat
    requires j <= k <= |ps|
  {
    if j == k then 0 else Total(ps, j, k - 1) + ps[k - 1].stride
  }

  /** From piece j on the pointer has either moved straight up, or gone back to the start once and so given up
      fewer than m bytes at the end of the buffer. */
  lemma {:induction false} Track(cap: nat, m: nat, start: nat, ps: seq<Piece>, j: nat, k: nat)
    requires HandedOut(cap, m, start, ps) && j < k <= |ps| && Total(ps, j, k) + 2 * m <= cap
    ensures Ptr(start, ps, k) == ps[j].at + Total(ps, j, k)
            || Ptr(start, ps, k) + cap - m < ps[j].at + Total(ps, j, k)
    decreases k
  {
    hide HandedOut;
    if j + 1 < k {
      Track(cap, m, start, ps, j, k - 1);
      Each(cap, m, start, ps, j);
      Each(cap, m, start, ps, k - 1);
      TrackStep(cap, m, ps[j].at, ps[j].size, Ptr(start, ps, k - 1), Total(ps, j, k - 1), ps[k - 1]);
    } else {
      assert Total(ps, j, j) == 0;
    }
  }

  lemma {:induction false} TrackStep(cap: nat, m: nat, at: nat, size: nat, ptr: nat, total: nat, p: Piece)
    requires at + size <= cap && total + p.stride + 2 * m <= cap
    requires ptr == at + total || ptr + cap - m < at + total
    requires Fits(cap, m, ptr, p)
    ensures p.at + p.stride == at + (total + p.stride) || p.at + p.stride + cap - m < at + (total + p.stride)
  {
  }

  predicate Disjoint(a: nat, m: nat, b: nat, n: nat)
  {
    a + m <= b || b + n <= a
  }

  /** A new piece k does not touch an earlier piece j as long as everything handed out from j up to it, j
      included, leaves room for two of the largest pieces. */
  lemma {:induction false} RecentPiecesSurvive(cap: nat, m: nat, start: nat, ps: seq<Piece>, j: nat, k: nat)
    requires HandedOut(cap, m, start, ps) && j < k < |ps| && Total(ps, j, k) + 2 * m <= cap
    ensures Disjoint(ps[j].at, ps[j].size, ps[k].at, ps[k].size)
  {
    hide HandedOut;
    Track(cap, m, start, ps, j, k);
    TotalGrows(ps, j, k);
    Each(cap, m, start, ps, j);
    Each(cap, m, start, ps, k);
  }

  lemma {:induction false} TotalGrows(ps: seq<Piece>, j: nat, k: nat)
    requires j < k <= |ps|
    ensures Total(ps, j, k) >= ps[j].stride
    decreases k
  {
    if j + 1 < k {
      TotalGrows(ps, j, k - 1);
    } else {
      assert Total(ps, j, j) == 0;
    }
  }

  /** Room for n pieces of m bytes. */
  function Room(m: nat, n: nat): nat
  {
    if n == 0 then 0 else Room(m, n - 1) + m
  }

  lemma {:induction false} RoomIsProduct(m: nat, n: nat)
    ensures Room(m, n) == m * n
  {
    if n > 0 { RoomIsProduct(m, n - 1); }
  }

  lemma {:induction false} RoomGrows(m: nat, a: nat, b: nat)
    requires a <= b
    ensures Room(m, a) <= Room(m, b)
    decreases b
  {
    if a < b { RoomGrows(m, a, b - 1); }
  }

  lemma {:induction false} TotalBounded(cap: nat, m: nat, start: nat, ps: seq<Piece>, j: nat, k: nat)
    requires HandedOut(cap, m, start, ps) && j <= k <= |ps|
    ensures Total(ps, j, k) <= Room(m, k - j)
    decreases k
  {
    hide HandedOut;
    if j < k {
      TotalBounded(cap, m, start, ps, j, k - 1);
      Each(cap, m, start, ps, k - 1);
    }
  }

  /** Counting pieces instead of bytes. */
  lemma {:induction false} LastPiecesSurvive(cap: nat, m: nat, start: nat, ps: seq<Piece>, n: nat, j: nat, k: nat)
    requires HandedOut(cap, m, start, ps) && j < k < |ps| && k - j <= n && Room(m, n + 2) <= cap
    ensures Disjoint(ps[j].at, ps[j].size, ps[k].at, ps[k].size)
  {
    hide HandedOut, Disjoint;
    TotalBounded(cap, m, start, ps, j, k);
    RoomGrows(m, k - j, n);
    RecentPiecesSurvive(cap, m, start, ps, j, k);
  }
}
