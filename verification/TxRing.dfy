/** Frames as one endless stream of words, of which the transmit memory holds a sliding window. */
module TxRing {
  import opened DmaQueue
  import opened SmapBd
  import opened SmapTx

  /** All words ever given to the DMA queue, in order. */
  function Stream(fs: seq<Frame>): seq<Word>
  {
    if fs == [] then [] else Stream(fs[..|fs| - 1]) + fs[|fs| - 1].words
  }

  /** Where frame k begins in the stream; for k == |fs|, where it ends. */
  function Pos(fs: seq<Frame>, k: nat): nat
    requires k <= |fs|
  {
    |Stream(fs[..k])|
  }

  lemma {:induction false} StreamPrefix(fs: seq<Frame>, k: nat)
    requires k <= |fs|
    ensures Stream(fs[..k]) <= Stream(fs)
  {
    if k == |fs| {
      assert fs[..k] == fs;
    } else {
      StreamPrefix(fs[..|fs| - 1], k);
      assert fs[..|fs| - 1][..k] == fs[..k];
    }
  }

  lemma {:induction false} FrameInStream(fs: seq<Frame>, k: nat)
    requires k < |fs|
    ensures Pos(fs, k + 1) == Pos(fs, k) + |fs[k].words| <= |Stream(fs)|
    ensures Stream(fs)[Pos(fs, k)..Pos(fs, k + 1)] == fs[k].words
  {
    var upto := fs[..k + 1];
    assert upto[..k] == fs[..k];
    StreamPrefix(fs, k + 1);
    assert Stream(upto) == Stream(fs[..k]) + fs[k].words;
  }

  lemma {:induction false} PosMonotone(fs: seq<Frame>, j: nat, k: nat)
    requires j <= k <= |fs|
    ensures Pos(fs, j) <= Pos(fs, k) <= |Stream(fs)| == Pos(fs, |fs|)
  {
    assert fs[..k][..j] == fs[..j] && fs[..|fs|] == fs;
    StreamPrefix(fs[..k], j);
    StreamPrefix(fs, k);
  }

  lemma {:induction false} AppendFrame(fs: seq<Frame>, f: Frame)
    ensures Stream(fs + [f]) == Stream(fs) + f.words
    ensures Pos(fs + [f], |fs| + 1) == Pos(fs, |fs|) + |f.words|
    ensures forall k | 0 <= k <= |fs| :: Pos(fs + [f], k) == Pos(fs, k)
  {
    var more := fs + [f];
    assert more[..|more| - 1] == fs && more[..|more|] == more && fs[..|fs|] == fs;
    forall k | 0 <= k <= |fs|
      ensures Pos(more, k) == Pos(fs, k)
    {
      assert more[..k] == fs[..k];
    }
  }

  // ---------- the window ----------

  /** Stream words lo to hi lie in memory, each at its position modulo the size. */
  predicate Window(mem: Memory, stream: seq<Word>, lo: nat, hi: nat)
  {
    lo <= hi <= |stream| && forall x | lo <= x < hi :: mem[x % TXWORDS] == stream[x]
  }

  function PtrOf(x: nat): Ptr
  {
    4 * x % TXBUFSIZE
  }

  lemma {:induction false} PtrFacts(x: nat, n: nat)
    ensures PtrOf(x) == 4 * (x % TXWORDS) && PtrOf(x) / 4 == x % TXWORDS
    ensures (PtrOf(x) + 4 * n) % TXBUFSIZE == PtrOf(x + n)
  {
    PtrMod(x);
    PtrMod(x + n);
  }

  lemma {:induction false} PtrMod(x: nat)
    ensures PtrOf(x) == 4 * (x % TXWORDS)
  {
    assert x == TXWORDS * (x / TXWORDS) + x % TXWORDS;
  }

  /** Words written at the end of the window extend it, as long as its span fits the memory. */
  lemma {:induction false} PokeExtends(mem: Memory, stream: seq<Word>, lo: nat, hi: nat, ws: seq<Word>)
    requires Window(mem, stream, lo, hi)
    requires hi + |ws| <= |stream| && stream[hi..hi + |ws|] == ws
    requires hi + |ws| <= lo + TXWORDS
    ensures Window(Poke(mem, PtrOf(hi), ws), stream, lo, hi + |ws|)
    decreases |ws|
  {
    if ws != [] {
      PtrFacts(hi, 1);
      var mem1 := mem[hi % TXWORDS := ws[0]];
      assert stream[hi] == ws[0] && stream[hi + 1..hi + |ws|] == ws[1..];
      forall x | lo <= x < hi + 1
        ensures mem1[x % TXWORDS] == stream[x]
      {
        if x < hi { assert x % TXWORDS != hi % TXWORDS; }
      }
      PokeExtends(mem1, stream, lo, hi + 1, ws[1..]);
    }
  }

  lemma {:induction false} WindowShrinks(mem: Memory, stream: seq<Word>, lo: nat, lo': nat, hi: nat)
    requires Window(mem, stream, lo, hi) && lo <= lo' <= hi
    ensures Window(mem, stream, lo', hi)
  {
  }

  lemma {:induction false} WindowStreamGrows(mem: Memory, stream: seq<Word>, more: seq<Word>, lo: nat, hi: nat)
    requires Window(mem, stream, lo, hi) && stream <= more
    ensures Window(mem, more, lo, hi)
  {
  }

  lemma {:induction false} ModShift(x: nat, j: nat)
    ensures (x % TXWORDS + j) % TXWORDS == (x + j) % TXWORDS
  {
  }

  lemma {:induction false} WindowHolds(mem: Memory, stream: seq<Word>, lo: nat, hi: nat, x: nat, ws: seq<Word>)
    requires Window(mem, stream, lo, hi) && lo <= x && x + |ws| <= hi && stream[x..x + |ws|] == ws
    ensures forall j | 0 <= j < |ws| :: mem[(PtrOf(x) / 4 + j) % TXWORDS] == ws[j]
  {
    PtrFacts(x, 0);
    hide PtrOf;
    forall j | 0 <= j < |ws|
      ensures mem[(PtrOf(x) / 4 + j) % TXWORDS] == ws[j]
    {
      ModShift(x, j);
      assert ws[j] == stream[x + j];
    }
  }

  // ---------- descriptors ----------

  /** The frame, counted from the first ever, that owns descriptor d when those before r are gone. */
  function Owner(r: nat, d: Index): nat
  {
    if r % BDS <= d then r - r % BDS + d else r - r % BDS + BDS + d
  }

  lemma {:induction false} OwnerFacts(r: nat, k: nat, d: Index)
    ensures r <= Owner(r, d) < r + BDS && Owner(r, d) % BDS == d
    ensures r <= k < r + BDS && k % BDS == d ==> Owner(r, d) == k
    ensures Owner(r + 1, d) == if d == r % BDS then r + BDS else Owner(r, d)
    ensures Next(r % BDS) == (r + 1) % BDS
  {
  }

  lemma {:induction false} SameIndex(j: nat, k: nat)
    requires j <= k < j + BDS && j % BDS == k % BDS
    ensures j == k
  {
  }
}
