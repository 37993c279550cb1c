/** The receive buffer that the EE registers (SMAP_CMD_SET_BUFFER of smap_rpc.c) and the places that
    SMapLowLevelInput of main.c gives frames in it. */
module EeBuffer {
  import opened BumpRing

  const WORD := 0x1_0000_0000
  const LINE := 64        // DMA_TRANSFER_SIZE
  const MAXFRAME := 1520  // the longest frame, in whole words
  const MAXSTRIDE := 1536 // the same in whole lines

  type U32 = x: int | 0 <= x < WORD

  /** The globals ee_buffer, ee_buffer_pos and ee_buffer_size, and the places given so far. */
  datatype Ee = Ee(buffer: U32, pos: nat, size: U32, pieces: seq<Piece>)

  function Offset(addr: U32): nat
  {
    if addr % LINE == 0 then 0 else LINE - addr % LINE
  }

  function RoundUp(n: nat): nat
  {
    (n + LINE - 1) / LINE * LINE
  }

  /** The state after a registration, in 32-bit arithmetic. */
  function SetBuffer(addr: U32, len: U32): Ee
  {
    if len > 0 then Ee((addr + Offset(addr)) % WORD, 0, (len - Offset(addr)) % WORD, []) else Ee(addr, 0, 0, [])
  }

  /** The state after a frame of n bytes; sent is whether the SIF takes it. */
  function Input(e: Ee, n: nat, sent: bool): Ee
  {
    if e.size == 0 then e
    else
      var at := if e.pos + n > e.size then 0 else e.pos;
      if sent then e.(pos := RoundUp(at + n), pieces := e.pieces + [Piece(at, n, RoundUp(n))]) else e.(pos := at)
  }

  /** A frame goes to the start only if it would run over the end where it is, and the next one begins on the first line
      behind it, unless the SIF did not take it; without a buffer nothing happens. */
  lemma {:induction false} InputPlaces(e: Ee, n: nat, sent: bool)
    ensures e.size == 0 ==> Input(e, n, sent) == e
    ensures var t, at := Input(e, n, sent), if e.pos + n <= e.size then e.pos else 0;
            e.size > 0 ==>
              && t.buffer == e.buffer && t.size == e.size
              && t.pieces == (if sent then e.pieces + [Piece(at, n, RoundUp(n))] else e.pieces)
              && (if sent then at + n <= t.pos < at + n + 64 && t.pos % 64 == 0 else t.pos == at)
  {
  }

  datatype Frame = Frame(len: nat, sent: bool)

  function Run(e: Ee, fs: seq<Frame>): Ee
    decreases |fs|
  {
    if fs == [] then e else Run(Input(e, fs[0].len, fs[0].sent), fs[1..])
  }

  predicate LegalFrames(fs: seq<Frame>)
  {
    forall i | 0 <= i < |fs| :: fs[i].len <= MAXFRAME
  }

  /** Every place given is a whole number of lines from address 0 and inside the len bytes at addr. */
  predicate Inside(e: Ee, addr: U32, len: U32)
  {
    forall k | 0 <= k < |e.pieces| ::
      && (e.buffer + e.pieces[k].at) % LINE == 0
      && addr <= e.buffer + e.pieces[k].at
      && e.buffer + e.pieces[k].at + e.pieces[k].size <= addr + len
  }

  predicate Inv(e: Ee)
  {
    && MAXFRAME <= e.size && e.buffer % LINE == 0 && e.pos % LINE == 0
    && HandedOut(e.size, MAXSTRIDE, 0, e.pieces)
    && (forall k | 0 <= k < |e.pieces| :: e.pieces[k].at % LINE == 0)
    && var ptr := Ptr(0, e.pieces, |e.pieces|);
       e.pos == ptr || (e.pos == 0 && e.size - ptr < MAXSTRIDE)
  }

  lemma {:induction false} RoundUpFacts(at: nat, n: nat)
    requires at % LINE == 0
    ensures RoundUp(at + n) == at + RoundUp(n) && RoundUp(at + n) % LINE == 0
    ensures n <= RoundUp(n) && (n <= MAXFRAME ==> RoundUp(n) <= MAXSTRIDE)
  {
  }

  lemma {:induction false} InputKeeps(e: Ee, n: nat, sent: bool)
    requires Inv(e) && n <= MAXFRAME
    ensures var t := Input(e, n, sent); Inv(t) && t.buffer == e.buffer && t.size == e.size
  {
    hide HandedOut;
    var at := if e.pos + n > e.size then 0 else e.pos;
    RoundUpFacts(at, n);
    hide RoundUp;
    var p := Piece(at, n, RoundUp(n));
    assert Fits(e.size, MAXSTRIDE, Ptr(0, e.pieces, |e.pieces|), p);
    OneMore(e.size, MAXSTRIDE, 0, e.pieces, p);
  }

  lemma {:induction false} RunKeeps(e: Ee, fs: seq<Frame>)
    requires Inv(e) && LegalFrames(fs)
    ensures var t := Run(e, fs); Inv(t) && t.buffer == e.buffer && t.size == e.size
    decreases |fs|
  {
    hide Inv, Input;
    if fs != [] {
      InputKeeps(e, fs[0].len, fs[0].sent);
      RunKeeps(Input(e, fs[0].len, fs[0].sent), fs[1..]);
    }
  }

  lemma {:induction false} SetBufferEstablishes(addr: U32, len: U32)
    requires addr + len <= WORD && Offset(addr) + MAXFRAME <= len
    ensures var e := SetBuffer(addr, len); Inv(e) && e.buffer == addr + Offset(addr) && e.size == len - Offset(addr)
  {
  }

  lemma {:induction false} Lines(a: nat, b: nat)
    requires a % LINE == 0 && b % LINE == 0
    ensures (a + b) % LINE == 0
  {
  }

  lemma {:induction false} InvIsInside(e: Ee, addr: U32, len: U32)
    requires Inv(e) && e.buffer == addr + Offset(addr) && e.size == len - Offset(addr)
    ensures Inside(e, addr, len)
  {
    hide Offset, HandedOut;
    forall k | 0 <= k < |e.pieces|
      ensures e.pieces[k].at + e.pieces[k].size <= e.size && (e.buffer + e.pieces[k].at) % LINE == 0
    {
      Each(e.size, MAXSTRIDE, 0, e.pieces, k);
      Lines(e.buffer, e.pieces[k].at);
    }
  }

  /** Registering len bytes at addr keeps all frames inside them, on line boundaries, exactly when the longest frame
      fits behind the alignment offset, or nothing is left there and all frames are lost. In between, the first
      long frame already runs over the end; with less than the offset the size wraps around. */
  lemma {:induction false} InsideIffRoom(addr: U32, len: U32)
    requires addr + len <= WORD && len > 0
    ensures (forall fs | LegalFrames(fs) :: Inside(Run(SetBuffer(addr, len), fs), addr, len))
            <==> Offset(addr) + MAXFRAME <= len || len == Offset(addr)
  {
    hide Inside;
    if Offset(addr) + MAXFRAME <= len {
      SetBufferEstablishes(addr, len);
      forall fs | LegalFrames(fs)
        ensures Inside(Run(SetBuffer(addr, len), fs), addr, len)
      {
        RunKeeps(SetBuffer(addr, len), fs);
        InvIsInside(Run(SetBuffer(addr, len), fs), addr, len);
      }
    } else if len == Offset(addr) {
      forall fs | LegalFrames(fs)
        ensures Inside(Run(SetBuffer(addr, len), fs), addr, len)
      {
        NothingRegistered(SetBuffer(addr, len), fs);
        NoPieces(SetBuffer(addr, len), addr, len);
      }
    } else {
      FirstFrameRunsOver(addr, len);
    }
  }

  lemma {:induction false} NoPieces(e: Ee, addr: U32, len: U32)
    requires e.pieces == []
    ensures Inside(e, addr, len)
  {
  }

  lemma {:induction false} NothingRegistered(e: Ee, fs: seq<Frame>)
    requires e.size == 0
    ensures Run(e, fs) == e
    decreases |fs|
  {
    if fs != [] { NothingRegistered(e, fs[1..]); }
  }

  lemma {:induction false} FirstFrameRunsOver(addr: U32, len: U32)
    requires addr + len <= WORD && 0 < len < Offset(addr) + MAXFRAME && len != Offset(addr)
    ensures exists fs :: LegalFrames(fs) && !Inside(Run(SetBuffer(addr, len), fs), addr, len)
  {
    var fs, e := [Frame(MAXFRAME, true)], SetBuffer(addr, len);
    assert fs[1..] == [];
    assert Run(e, fs) == Input(e, MAXFRAME, true);
    assert Run(e, fs).pieces[0].at == 0;
  }

  /** Frames do not touch as long as what was handed out since the earlier one leaves room for two more. */
  lemma {:induction false} RecentFramesSurvive(addr: U32, len: U32, fs: seq<Frame>, j: nat, k: nat)
    requires addr + len <= WORD && Offset(addr) + MAXFRAME <= len && LegalFrames(fs)
    requires var e := Run(SetBuffer(addr, len), fs);
             j < k < |e.pieces| && Total(e.pieces, j, k) + 2 * MAXSTRIDE <= e.size
    ensures var ps := Run(SetBuffer(addr, len), fs).pieces; Disjoint(ps[j].at, ps[j].size, ps[k].at, ps[k].size)
  {
    SetBufferEstablishes(addr, len);
    RunKeeps(SetBuffer(addr, len), fs);
    var e := Run(SetBuffer(addr, len), fs);
    RecentPiecesSurvive(e.size, MAXSTRIDE, 0, e.pieces, j, k);
  }

  /** The globals themselves. */
  class Globals {
    var buffer: U32
    var pos: nat
    var size: U32
    ghost var pieces: seq<Piece>

    ghost function State(): Ee
      reads this
    {
      Ee(buffer, pos, size, pieces)
    }

    constructor ()
      ensures size == 0
    {
      buffer, pos, size, pieces := 0, 0, 0, [];
    }

    /** SMAP_CMD_SET_BUFFER. An earlier position survives a registration of no bytes, where it has no effect. */
    method Register(addr: U32, len: U32)
      modifies this
      ensures len > 0 ==> State() == SetBuffer(addr, len)
      ensures len == 0 ==> size == 0
    {
      size := 0;
      buffer := addr;
      if len > 0 {
        var offset := LINE - buffer % LINE;
        if offset == LINE {
          offset := 0;
        }
        buffer := (buffer + offset) % WORD;
        pos := 0;
        size := (len - offset) % WORD;
        pieces := [];
      }
    }

    /** SMapLowLevelInput; sent is whether isceSifSendCmd succeeds. Returns the EE address used. */
    method Receive(len: nat, sent: bool) returns (dest: nat)
      modifies this
      ensures State() == Input(old(State()), len, sent)
      ensures size != 0 && sent ==> pieces != [] && dest == buffer + pieces[|pieces| - 1].at
    {
      dest := 0;
      if size == 0 {
        return;
      }
      if pos + len > size {
        pos := 0;
      }
      dest := buffer + pos;
      if !sent {
        return;
      }
      pieces := pieces + [Piece(pos, len, RoundUp(len))];
      pos := (pos + len + LINE - 1) / LINE * LINE;
    }
  }
}
