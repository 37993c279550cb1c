/** The data path of a PATA read: the DMA engine fills the data buffer chunk by chunk while the transfers of
    earlier chunks to the EE are still under way. */
module PataCopy {
  import opened BumpRing
  import opened PataPlan
  import DmaQueue

  type Byte = x: int | 0 <= x < 256
  type Buffer = b: seq<Byte> | |b| == BUFFER witness seq(BUFFER, _ => 0)
  type Memory = map<nat, Byte>

  /** Stores data at the given addresses, one after the other. */
  function Scatter(ee: Memory, addrs: seq<nat>, data: seq<Byte>): Memory
    requires |addrs| == |data|
    decreases |addrs|
  {
    if addrs == [] then ee else Scatter(ee[addrs[0] := data[0]], addrs[1..], data[1..])
  }

  /** What that means where no address comes twice: each gets its byte, and nothing else changes. */
  lemma {:induction false} ScatterMeans(ee: Memory, addrs: seq<nat>, data: seq<Byte>)
    requires |addrs| == |data| && forall i, j | 0 <= i < j < |addrs| :: addrs[i] != addrs[j]
    ensures var t := Scatter(ee, addrs, data);
            && (forall i | 0 <= i < |addrs| :: addrs[i] in t && t[addrs[i]] == data[i])
            && (forall a | a !in addrs :: (a in t) == (a in ee) && (a in ee ==> t[a] == ee[a]))
    decreases |addrs|
  {
    if addrs != [] {
      ScatterMeans(ee[addrs[0] := data[0]], addrs[1..], data[1..]);
      assert addrs == [addrs[0]] + addrs[1..];
    }
  }

  lemma {:induction false} ScatterAppend(ee: Memory, a: seq<nat>, b: seq<nat>, x: seq<Byte>, y: seq<Byte>)
    requires |a| == |x| && |b| == |y|
    ensures Scatter(ee, a + b, x + y) == Scatter(Scatter(ee, a, x), b, y)
    decreases |a|
  {
    if a == [] {
      assert a + b == b && x + y == y;
    } else {
      assert (a + b)[1..] == a[1..] + b && (x + y)[1..] == x[1..] + y;
      ScatterAppend(ee[a[0] := x[0]], a[1..], b, x[1..], y);
    }
  }

  /** Where chunk k begins in what is to be copied. */
  function Offset(cs: seq<Chunk>, k: nat): nat
    requires k <= |cs|
  {
    if k == 0 then 0 else Offset(cs, k - 1) + cs[k - 1].size
  }

  /** How much the engine has taken from the disk before chunk k. */
  function Taken(cs: seq<Chunk>, k: nat): nat
    requires k <= |cs|
  {
    if k == 0 then 0 else Taken(cs, k - 1) + cs[k - 1].Carried()
  }

  /** A read under way: moved bytes of chunk number landed are in the buffer, all chunks before it have been
      handed to the SIF, and the SIF has copied the first arrived of them to EE memory. */
  datatype State = State(buffer: Buffer, ee: Memory, landed: nat, moved: nat, arrived: nat)

  datatype Step = Move | Land | Arrive

  /** The engine moves whole blocks, and then the chunk lands, which starts the next one at once. Nothing in the
      firmware makes it wait, so it has to be true that by then the third chunk before the next one has arrived. */
  predicate Enabled(cs: seq<Chunk>, s: State, step: Step)
  {
    Possible(cs, s, step) && (step == Land && s.landed + 1 < |cs| ==> s.landed <= s.arrived + 1)
  }

  /** The same without this condition. */
  predicate Possible(cs: seq<Chunk>, s: State, step: Step)
  {
    match step
    case Move => s.landed < |cs| && s.moved < cs[s.landed].Carried()
    case Land => s.landed < |cs| && s.moved == cs[s.landed].Carried()
    case Arrive => s.arrived < s.landed <= |cs|
  }

  /** Chunks are inside the buffer and the disk has data for all of them. */
  predicate Feasible(cs: seq<Chunk>, disk: seq<Byte>)
  {
    && (forall k | 0 <= k < |cs| :: cs[k].src + cs[k].size <= BUFFER)
    && Offset(cs, |cs|) == |disk|
  }

  lemma {:induction false} OffsetMonotone(cs: seq<Chunk>, j: nat, k: nat)
    requires j <= k <= |cs|
    ensures Offset(cs, j) <= Offset(cs, k)
    decreases k
  {
    if j < k { OffsetMonotone(cs, j, k - 1); }
  }

  lemma {:induction false} TakenMonotone(cs: seq<Chunk>, j: nat, k: nat)
    requires j <= k <= |cs|
    ensures Taken(cs, j) <= Taken(cs, k)
    decreases k
  {
    if j < k { TakenMonotone(cs, j, k - 1); }
  }

  /** The engine takes all of the disk's data exactly if every chunk has whole blocks. */
  lemma {:induction false} TakenIsOffsetIff(cs: seq<Chunk>, k: nat)
    requires k <= |cs|
    ensures Taken(cs, k) <= Offset(cs, k)
    ensures Taken(cs, k) == Offset(cs, k) <==> Whole(cs[..k])
    decreases k
  {
    if k > 0 {
      TakenIsOffsetIff(cs, k - 1);
      assert cs[..k] == cs[..k - 1] + [cs[k - 1]];
      WholeSnoc(cs[..k - 1], cs[k - 1]);
    }
  }

  lemma {:induction false} WholeSnoc(cs: seq<Chunk>, c: Chunk)
    ensures Whole(cs + [c]) <==> Whole(cs) && c.Carried() == c.size
  {
    assert (cs + [c])[|cs|] == c;
    assert forall k | 0 <= k < |cs| :: cs[k] == (cs + [c])[k];
  }

  function Next(cs: seq<Chunk>, disk: seq<Byte>, s: State, step: Step): State
    requires Feasible(cs, disk) && Possible(cs, s, step)
  {
    match step
    case Move =>
      TakenMonotone(cs, s.landed + 1, |cs|);
      TakenIsOffsetIff(cs, |cs|);
      s.(buffer := s.buffer[cs[s.landed].src + s.moved := disk[Taken(cs, s.landed) + s.moved]], moved := s.moved + 1)
    case Land => s.(landed := s.landed + 1, moved := 0)
    case Arrive =>
      var c := cs[s.arrived];
      s.(ee := Scatter(s.ee, Range(c.dest, c.size), s.buffer[c.src..c.src + c.size]), arrived := s.arrived + 1)
  }

  predicate Run(cs: seq<Chunk>, disk: seq<Byte>, s: State, steps: seq<Step>, t: State)
    requires Feasible(cs, disk)
    decreases |steps|
  {
    if steps == [] then s == t
    else Enabled(cs, s, steps[0]) && Run(cs, disk, Next(cs, disk, s, steps[0]), steps[1..], t)
  }

  // ---------- the invariant ----------

  /** The first n chunks and the disk's data for them. */
  function Part(ee: Memory, cs: seq<Chunk>, disk: seq<Byte>, n: nat): Memory
    requires Feasible(cs, disk) && n <= |cs|
  {
    OffsetMonotone(cs, n, |cs|);
    OffsetIsLength(cs, n);
    Scatter(ee, ChunkBytes(cs[..n]), disk[..Offset(cs, n)])
  }

  lemma {:induction false} BytesAppend(cs: seq<Chunk>, c: Chunk)
    ensures ChunkBytes(cs + [c]) == ChunkBytes(cs) + Range(c.dest, c.size)
    decreases |cs|
  {
    if cs == [] {
      assert cs + [c] == [c] && [c][1..] == [];
    } else {
      BytesAppend(cs[1..], c);
      assert (cs + [c])[1..] == cs[1..] + [c];
    }
  }

  lemma {:induction false} OffsetIsLength(cs: seq<Chunk>, n: nat)
    requires n <= |cs|
    ensures |ChunkBytes(cs[..n])| == Offset(cs, n)
    decreases n
  {
    if n > 0 {
      OffsetIsLength(cs, n - 1);
      BytesAppend(cs[..n - 1], cs[n - 1]);
      assert cs[..n] == cs[..n - 1] + [cs[n - 1]];
    }
  }

  lemma {:induction false} PartStep(ee: Memory, cs: seq<Chunk>, disk: seq<Byte>, n: nat)
    requires Feasible(cs, disk) && n < |cs|
    ensures Offset(cs, n) + cs[n].size <= |disk|
    ensures Part(ee, cs, disk, n + 1)
            == Scatter(Part(ee, cs, disk, n), Range(cs[n].dest, cs[n].size),
              disk[Offset(cs, n)..Offset(cs, n) + cs[n].size])
  {
    OffsetMonotone(cs, n + 1, |cs|);
    OffsetIsLength(cs, n);
    var x := Offset(cs, n);
    BytesAppend(cs[..n], cs[n]);
    assert cs[..n + 1] == cs[..n] + [cs[n]];
    assert disk[..x + cs[n].size] == disk[..x] + disk[x..x + cs[n].size];
    ScatterAppend(ee, ChunkBytes(cs[..n]), Range(cs[n].dest, cs[n].size), disk[..x], disk[x..x + cs[n].size]);
  }

  /** The first n bytes of chunk k are in the buffer. */
  predicate InBuffer(cs: seq<Chunk>, disk: seq<Byte>, buffer: Buffer, k: nat, n: nat)
    requires Feasible(cs, disk) && k < |cs| && n <= cs[k].size
  {
    OffsetMonotone(cs, k + 1, |cs|);
    buffer[cs[k].src..cs[k].src + n] == disk[Offset(cs, k)..Offset(cs, k) + n]
  }

  /** What has landed and not arrived is in the buffer, and what the engine has moved of the next chunk. */
  predicate Buffered(cs: seq<Chunk>, disk: seq<Byte>, s: State)
    requires Feasible(cs, disk)
  {
    && s.arrived <= s.landed <= |cs|
    && (s.landed < |cs| ==> s.landed <= s.arrived + 2)
    && (s.landed < |cs| ==> s.moved <= cs[s.landed].size && InBuffer(cs, disk, s.buffer, s.landed, s.moved))
    && (forall k | s.arrived <= k < s.landed :: InBuffer(cs, disk, s.buffer, k, cs[k].size))
  }

  predicate Inv(cs: seq<Chunk>, disk: seq<Byte>, ee: Memory, s: State)
    requires Feasible(cs, disk)
  {
    Buffered(cs, disk, s) && s.ee == Part(ee, cs, disk, s.arrived)
  }

  lemma {:induction false} WriteElsewhere(b: Buffer, i: nat, v: Byte, lo: nat, hi: nat)
    requires i < BUFFER && lo <= hi <= BUFFER && (i < lo || hi <= i)
    ensures b[i := v][lo..hi] == b[lo..hi]
  {
  }

  lemma {:induction false} WriteNext(b: Buffer, i: nat, disk: seq<Byte>, x: nat, n: nat)
    requires i + n < BUFFER && x + n < |disk| && b[i..i + n] == disk[x..x + n]
    ensures b[i + n := disk[x + n]][i..i + n + 1] == disk[x..x + n + 1]
  {
    var c := b[i + n := disk[x + n]];
    assert c[i..i + n + 1] == c[i..i + n] + [disk[x + n]];
    assert disk[x..x + n + 1] == disk[x..x + n] + [disk[x + n]];
    WriteElsewhere(b, i + n, disk[x + n], i, i + n);
  }

  /** The engine writes into a chunk that touches none of those still being sent. */
  lemma {:induction false} MoveKeeps(cs: seq<Chunk>, ptr: nat, disk: seq<Byte>, ee: Memory, s: State)
    requires Feasible(cs, disk) && Whole(cs) && Placed(cs, ptr) && Inv(cs, disk, ee, s) && Enabled(cs, s, Move)
    ensures Inv(cs, disk, ee, Next(cs, disk, s, Move))
  {
    hide Part, Placed, Whole, InBuffer, Offset, Taken, Feasible, Next;
    NextMove(cs, disk, s);
    var t := Next(cs, disk, s, Move);
    forall k | s.arrived <= k < s.landed
      ensures InBuffer(cs, disk, t.buffer, k, cs[k].size)
    {
      MoveSpares(cs, ptr, disk, s, k);
    }
  }

  lemma {:induction false} NextMove(cs: seq<Chunk>, disk: seq<Byte>, s: State)
    requires Feasible(cs, disk) && Whole(cs) && Buffered(cs, disk, s) && Enabled(cs, s, Move)
    ensures s.moved < cs[s.landed].size
    ensures var t := Next(cs, disk, s, Move);
            t == s.(buffer := t.buffer, moved := s.moved + 1) && InBuffer(cs, disk, t.buffer, s.landed, s.moved + 1)
  {
    hide Next, Offset, Taken, Whole;
    WholeTakes(cs, s.landed);
    NextByte(cs, disk, s);
  }

  /** It brings the next byte of its own chunk. */
  lemma {:induction false} NextByte(cs: seq<Chunk>, disk: seq<Byte>, s: State)
    requires Feasible(cs, disk) && Whole(cs) && s.landed < |cs| && s.moved < cs[s.landed].size
    requires InBuffer(cs, disk, s.buffer, s.landed, s.moved)
    ensures Possible(cs, s, Move)
    ensures var t := Next(cs, disk, s, Move);
            t == s.(buffer := t.buffer, moved := s.moved + 1) && InBuffer(cs, disk, t.buffer, s.landed, s.moved + 1)
  {
    hide Whole, Offset, Taken;
    OffsetMonotone(cs, s.landed + 1, |cs|);
    OffsetNext(cs, s.landed);
    WholeTakes(cs, s.landed);
    WriteNext(s.buffer, cs[s.landed].src, disk, Offset(cs, s.landed), s.moved);
  }

  lemma {:induction false} OffsetNext(cs: seq<Chunk>, k: nat)
    requires k < |cs|
    ensures Offset(cs, k + 1) == Offset(cs, k) + cs[k].size
  {
  }

  lemma {:induction false} MoveSpares(cs: seq<Chunk>, ptr: nat, disk: seq<Byte>, s: State, k: nat)
    requires Feasible(cs, disk) && Placed(cs, ptr) && Buffered(cs, disk, s) && Enabled(cs, s, Move)
    requires s.arrived <= k < s.landed
    ensures InBuffer(cs, disk, Next(cs, disk, s, Move).buffer, k, cs[k].size)
  {
    hide Placed, Offset, Taken;
    TwoChunksSurvive(cs, ptr, k, s.landed);
    assert InBuffer(cs, disk, s.buffer, k, cs[k].size);
    var i := cs[s.landed].src + s.moved;
    WriteElsewhere(s.buffer, i, Next(cs, disk, s, Move).buffer[i], cs[k].src, cs[k].src + cs[k].size);
  }

  lemma {:induction false} WholeTakes(cs: seq<Chunk>, k: nat)
    requires Whole(cs) && k <= |cs|
    ensures Taken(cs, k) == Offset(cs, k) && (k < |cs| ==> cs[k].Carried() == cs[k].size)
  {
    TakenIsOffsetIff(cs, k);
  }

  lemma {:induction false} LandKeeps(cs: seq<Chunk>, disk: seq<Byte>, ee: Memory, s: State)
    requires Feasible(cs, disk) && Whole(cs) && Inv(cs, disk, ee, s) && Enabled(cs, s, Land)
    ensures Inv(cs, disk, ee, Next(cs, disk, s, Land))
  {
    hide Part, Whole;
    WholeTakes(cs, s.landed);
    if s.landed + 1 < |cs| {
      OffsetMonotone(cs, s.landed + 1, |cs|);
      InBufferNothing(cs, disk, s.buffer, s.landed + 1);
    }
    hide InBuffer, Offset, Taken;
  }

  lemma {:induction false} InBufferNothing(cs: seq<Chunk>, disk: seq<Byte>, buffer: Buffer, k: nat)
    requires Feasible(cs, disk) && k < |cs|
    ensures InBuffer(cs, disk, buffer, k, 0)
  {
    OffsetMonotone(cs, k, |cs|);
  }

  lemma {:induction false} ArriveKeeps(cs: seq<Chunk>, disk: seq<Byte>, ee: Memory, s: State)
    requires Feasible(cs, disk) && Inv(cs, disk, ee, s) && Enabled(cs, s, Arrive)
    ensures Inv(cs, disk, ee, Next(cs, disk, s, Arrive))
  {
    PartStep(ee, cs, disk, s.arrived);
    ArrivesWhole(cs, disk, s);
    ArriveKeepsBuffer(cs, disk, s);
    hide Part, Scatter, Range, Buffered, Feasible;
  }

  lemma {:induction false} ArriveKeepsBuffer(cs: seq<Chunk>, disk: seq<Byte>, s: State)
    requires Feasible(cs, disk) && Buffered(cs, disk, s) && Enabled(cs, s, Arrive)
    ensures Buffered(cs, disk, Next(cs, disk, s, Arrive))
  {
    hide InBuffer, Scatter, Range, Feasible;
  }

  lemma {:induction false} ArrivesWhole(cs: seq<Chunk>, disk: seq<Byte>, s: State)
    requires Feasible(cs, disk) && Buffered(cs, disk, s) && s.arrived < s.landed
    ensures var c, x := cs[s.arrived], Offset(cs, s.arrived);
            x + c.size <= |disk| && c.src + c.size <= BUFFER && s.buffer[c.src..c.src + c.size] == disk[x..x + c.size]
  {
    OffsetMonotone(cs, s.arrived + 1, |cs|);
    assert InBuffer(cs, disk, s.buffer, s.arrived, cs[s.arrived].size);
  }

  lemma {:induction false} RunKeeps(cs: seq<Chunk>, ptr: nat, disk: seq<Byte>, ee: Memory, s: State,
                                    steps: seq<Step>, t: State)
    requires Feasible(cs, disk) && Whole(cs) && Placed(cs, ptr) && Inv(cs, disk, ee, s) && Run(cs, disk, s, steps, t)
    ensures Inv(cs, disk, ee, t)
    decreases |steps|
  {
    hide Placed, Inv, Next, Whole;
    if steps != [] {
      match steps[0] {
        case Move => MoveKeeps(cs, ptr, disk, ee, s);
        case Land => LandKeeps(cs, disk, ee, s);
        case Arrive => ArriveKeeps(cs, disk, ee, s);
      }
      RunKeeps(cs, ptr, disk, ee, Next(cs, disk, s, steps[0]), steps[1..], t);
    }
  }

  // ---------- when a finished read is a plain copy ----------

  lemma {:induction false} ReadsAreFeasible(todo: seq<Sg>, ptr: nat, disk: seq<Byte>)
    requires ptr <= BUFFER && |disk| == |SgBytes(todo)|
    ensures Feasible(Reads(todo, ptr), disk)
  {
    var cs := Reads(todo, ptr);
    ReadsArePlaced(todo, ptr);
    ReadsTile(todo, ptr);
    OffsetIsLength(cs, |cs|);
    assert cs[..|cs|] == cs;
    forall k | 0 <= k < |cs|
      ensures cs[k].src + cs[k].size <= BUFFER
    {
      ChunkFits(cs, ptr, k);
    }
  }

  /** Whatever is on the disk and in the buffer, and however the engine and the SIF take turns, when the last chunk has
      arrived EE memory is what copying the disk's bytes to the given addresses makes it. */
  ghost predicate CopiesPlainly(cs: seq<Chunk>, addrs: seq<nat>)
  {
    forall disk, ee, buffer, steps, t ::
      |disk| == |addrs| && Feasible(cs, disk) && Run(cs, disk, State(buffer, ee, 0, 0, 0), steps, t)
        && t.arrived == |cs| ==>
        t.ee == Scatter(ee, addrs, disk)
  }

  lemma {:induction false} WholeReadIsPlainCopy(sgs: seq<Sg>, ptr: nat, disk: seq<Byte>, ee: Memory, buffer: Buffer,
                                                steps: seq<Step>, t: State)
    requires ptr <= BUFFER && |disk| == |SgBytes(sgs)| && Sectors(sgs)
    requires var cs := Reads(sgs, ptr);
             Feasible(cs, disk) && Run(cs, disk, State(buffer, ee, 0, 0, 0), steps, t) && t.arrived == |cs|
    ensures t.ee == Scatter(ee, SgBytes(sgs), disk)
  {
    hide Run, Feasible, Placed, Reads, SgBytes, Scatter, Sectors, Whole;
    var cs := Reads(sgs, ptr);
    ReadsArePlaced(sgs, ptr);
    ReadsTile(sgs, ptr);
    WholeIffSectors(sgs, ptr);
    BeginningKeeps(cs, disk, ee, buffer);
    RunKeeps(cs, ptr, disk, ee, State(buffer, ee, 0, 0, 0), steps, t);
    EverythingIsPart(cs, disk, ee);
  }

  lemma {:induction false} BeginningKeeps(cs: seq<Chunk>, disk: seq<Byte>, ee: Memory, buffer: Buffer)
    requires Feasible(cs, disk)
    ensures Inv(cs, disk, ee, State(buffer, ee, 0, 0, 0))
  {
    if cs != [] { InBufferNothing(cs, disk, buffer, 0); }
  }

  lemma {:induction false} EverythingIsPart(cs: seq<Chunk>, disk: seq<Byte>, ee: Memory)
    requires Feasible(cs, disk) && |ChunkBytes(cs)| == |disk|
    ensures Part(ee, cs, disk, |cs|) == Scatter(ee, ChunkBytes(cs), disk)
  {
    assert cs[..|cs|] == cs && disk[..|disk|] == disk;
  }

  /** A read that has got somewhere can be finished. */
  lemma {:induction false} CanFinish(cs: seq<Chunk>, disk: seq<Byte>, s: State) returns (steps: seq<Step>, t: State)
    requires Feasible(cs, disk) && s.arrived <= s.landed <= |cs|
    requires s.landed < |cs| ==> s.moved <= cs[s.landed].Carried()
    ensures Run(cs, disk, s, steps, t) && t.arrived == |cs|
    decreases |cs| - s.arrived, |cs| - s.landed, if s.landed < |cs| then cs[s.landed].Carried() - s.moved else 0
  {
    if s.arrived == |cs| {
      return [], s;
    }
    var step := if s.arrived < s.landed then Arrive else if s.moved < cs[s.landed].Carried() then Move else Land;
    var rest;
    rest, t := CanFinish(cs, disk, Next(cs, disk, s, step));
    steps := [step] + rest;
    assert steps[1..] == rest;
  }

  /** A run does not depend on what the engine never takes from the disk. */
  lemma {:induction false} TakesNoMore(cs: seq<Chunk>, d: seq<Byte>, e: seq<Byte>, s: State, steps: seq<Step>, t: State)
    requires Feasible(cs, d) && Feasible(cs, e) && Run(cs, d, s, steps, t)
    requires forall i | 0 <= i < Taken(cs, |cs|) && i < |d| :: d[i] == e[i]
    ensures Run(cs, e, s, steps, t)
    decreases |steps|
  {
    if steps != [] {
      if steps[0] == Move {
        TakenMonotone(cs, s.landed + 1, |cs|);
        TakenIsOffsetIff(cs, |cs|);
      }
      assert Next(cs, d, s, steps[0]) == Next(cs, e, s, steps[0]);
      hide Next, Feasible;
      TakesNoMore(cs, d, e, Next(cs, d, s, steps[0]), steps[1..], t);
    }
  }

  lemma {:induction false} LastWins(ee: Memory, addrs: seq<nat>, data: seq<Byte>)
    requires |addrs| == |data| && addrs != []
    ensures var a := addrs[|addrs| - 1];
            a in Scatter(ee, addrs, data) && Scatter(ee, addrs, data)[a] == data[|data| - 1]
  {
    var n := |addrs| - 1;
    assert addrs == addrs[..n] + [addrs[n]] && data == data[..n] + [data[n]];
    ScatterAppend(ee, addrs[..n], [addrs[n]], data[..n], [data[n]]);
    assert [addrs[n]][1..] == [];
  }

  /** A read whose engine leaves the last byte on the disk is no copy: it cannot tell two disks apart. */
  lemma {:induction false} PartialReadIsNoCopy(cs: seq<Chunk>, addrs: seq<nat>, zeros: seq<Byte>)
    requires Feasible(cs, zeros) && |zeros| == |addrs| && Taken(cs, |cs|) < |zeros|
    requires forall i | 0 <= i < |zeros| :: zeros[i] == 0
    ensures !CopiesPlainly(cs, addrs)
  {
    var ee: Memory, buffer: Buffer := map[], seq(BUFFER, _ => 0);
    var steps, t := CanFinish(cs, zeros, State(buffer, ee, 0, 0, 0));
    var ones := zeros[|zeros| - 1 := 1];
    TakesNoMore(cs, zeros, ones, State(buffer, ee, 0, 0, 0), steps, t);
    LastWins(ee, addrs, zeros);
    LastWins(ee, addrs, ones);
  }

  /** A finished read is a plain copy, on every disk and in every run, exactly if every entry has whole blocks. */
  lemma {:induction false} PlainCopyIffSectors(sgs: seq<Sg>, ptr: nat)
    requires ptr <= BUFFER
    ensures CopiesPlainly(Reads(sgs, ptr), SgBytes(sgs)) <==> Sectors(sgs)
  {
    hide Sectors, Reads, SgBytes, Run, Feasible, Whole;
    var cs, addrs := Reads(sgs, ptr), SgBytes(sgs);
    if Sectors(sgs) {
      forall disk, ee, buffer, steps, t
        | |disk| == |addrs| && Feasible(cs, disk) && Run(cs, disk, State(buffer, ee, 0, 0, 0), steps, t)
          && t.arrived == |cs|
        ensures t.ee == Scatter(ee, addrs, disk)
      {
        WholeReadIsPlainCopy(sgs, ptr, disk, ee, buffer, steps, t);
      }
    } else {
      var zeros: seq<Byte> := seq(|addrs|, _ => 0);
      ReadsAreFeasible(sgs, ptr, zeros);
      WholeIffSectors(sgs, ptr);
      TakenIsOffsetIff(cs, |cs|);
      assert cs[..|cs|] == cs;
      assert Offset(cs, |cs|) == |zeros| by { FeasibleMeans(cs, zeros); }
      PartialReadIsNoCopy(cs, addrs, zeros);
    }
  }

  lemma {:induction false} FeasibleMeans(cs: seq<Chunk>, disk: seq<Byte>)
    requires Feasible(cs, disk)
    ensures Offset(cs, |cs|) == |disk|
  {
  }

  /** An entry of less than a block arrives as what the buffer happened to hold. */
  lemma {:induction false} ShortReadIsStale(a: nat, n: nat, disk: seq<Byte>, ee: Memory, buffer: Buffer, s: State,
                                            steps: seq<Step>, t: State)
    requires n < 128
    requires var cs := [Chunk(0, a, n)];
             Feasible(cs, disk) && Run(cs, disk, s, steps, t) && t.arrived == 1
    requires s.buffer == buffer && s.moved == 0 && s.arrived <= s.landed <= 1
    requires s.ee == if s.arrived == 0 then ee else Scatter(ee, Range(a, n), buffer[0..n])
    ensures t.ee == Scatter(ee, Range(a, n), buffer[0..n])
    decreases |steps|
  {
    var cs := [Chunk(0, a, n)];
    DmaQueue.BlocksExactBelow8M(n);
    assert cs[0].Carried() == 0;
    hide Range, Scatter;
    if steps != [] {
      ShortReadIsStale(a, n, disk, ee, buffer, Next(cs, disk, s, steps[0]), steps[1..], t);
    }
  }

  // ---------- a third chunk that is late ----------

  /** Runs in which the SIF may lag behind as far as it likes. */
  predicate AnyRun(cs: seq<Chunk>, disk: seq<Byte>, s: State, steps: seq<Step>, t: State)
    requires Feasible(cs, disk)
    decreases |steps|
  {
    if steps == [] then s == t
    else Possible(cs, s, steps[0]) && AnyRun(cs, disk, Next(cs, disk, s, steps[0]), steps[1..], t)
  }

  lemma {:induction false} OneStep(cs: seq<Chunk>, disk: seq<Byte>, s: State, step: Step)
    requires Feasible(cs, disk) && Possible(cs, s, step)
    ensures AnyRun(cs, disk, s, [step], Next(cs, disk, s, step))
  {
    hide Next, Feasible, Possible;
    assert [step][1..] == [];
  }

  lemma {:induction false} RunsJoin(cs: seq<Chunk>, disk: seq<Byte>, s: State, a: seq<Step>, t: State, b: seq<Step>,
                                    u: State)
    requires Feasible(cs, disk) && AnyRun(cs, disk, s, a, t) && AnyRun(cs, disk, t, b, u)
    ensures AnyRun(cs, disk, s, a + b, u)
    decreases |a|
  {
    hide Next, Feasible;
    if a == [] {
      assert a + b == b;
    } else {
      assert (a + b)[1..] == a[1..] + b;
      RunsJoin(cs, disk, Next(cs, disk, s, a[0]), a[1..], t, b, u);
    }
  }

  /** The engine can move all of a chunk. */
  lemma {:induction false} MoveChunk(cs: seq<Chunk>, disk: seq<Byte>, s: State) returns (steps: seq<Step>, t: State)
    requires Feasible(cs, disk) && Whole(cs) && s.landed < |cs| && s.moved <= cs[s.landed].size
    requires InBuffer(cs, disk, s.buffer, s.landed, s.moved)
    ensures AnyRun(cs, disk, s, steps, t) && t == s.(buffer := t.buffer, moved := cs[s.landed].Carried())
    ensures InBuffer(cs, disk, t.buffer, s.landed, cs[s.landed].size)
    decreases cs[s.landed].size - s.moved
  {
    hide Next, Feasible, InBuffer, Whole, AnyRun;
    WholeTakes(cs, s.landed);
    if s.moved == cs[s.landed].size {
      steps, t := [], s;
      NoSteps(cs, disk, s);
    } else {
      NextByte(cs, disk, s);
      OneStep(cs, disk, s, Move);
      var rest;
      rest, t := MoveChunk(cs, disk, Next(cs, disk, s, Move));
      RunsJoin(cs, disk, s, [Move], Next(cs, disk, s, Move), rest, t);
      steps := [Move] + rest;
    }
  }

  lemma {:induction false} NoSteps(cs: seq<Chunk>, disk: seq<Byte>, s: State)
    requires Feasible(cs, disk)
    ensures AnyRun(cs, disk, s, [], s)
  {
  }

  /** The engine can land chunks up to the n-th, with none of them arriving. */
  lemma {:induction false} LandChunks(cs: seq<Chunk>, disk: seq<Byte>, s: State, n: nat)
    returns (steps: seq<Step>, t: State)
    requires Feasible(cs, disk) && Whole(cs) && s.arrived <= s.landed <= n <= |cs| && s.moved == 0
    ensures AnyRun(cs, disk, s, steps, t) && t == s.(buffer := t.buffer, landed := n)
    ensures n > s.landed ==> InBuffer(cs, disk, t.buffer, n - 1, cs[n - 1].size)
    ensures n == s.landed ==> t == s
    decreases n - s.landed
  {
    hide Feasible, InBuffer, Whole, AnyRun;
    if s.landed == n {
      steps, t := [], s;
      NoSteps(cs, disk, s);
    } else {
      InBufferNothing(cs, disk, s.buffer, s.landed);
      var a, u := MoveChunk(cs, disk, s);
      var v := Next(cs, disk, u, Land);
      OneStep(cs, disk, u, Land);
      RunsJoin(cs, disk, s, a, u, [Land], v);
      var b;
      b, t := LandChunks(cs, disk, v, n);
      RunsJoin(cs, disk, s, a + [Land], v, b, t);
      steps := a + [Land] + b;
    }
  }

  /** What has landed can arrive, and arrives as the buffer is then. */
  lemma {:induction false} ArriveAll(cs: seq<Chunk>, disk: seq<Byte>, s: State, a: nat)
    returns (steps: seq<Step>, t: State)
    requires Feasible(cs, disk) && s.arrived <= s.landed <= |cs|
    ensures AnyRun(cs, disk, s, steps, t) && t == s.(ee := t.ee, arrived := s.landed)
    ensures a in s.ee && (forall k | s.arrived <= k < s.landed :: a !in Range(cs[k].dest, cs[k].size)) ==>
              a in t.ee && t.ee[a] == s.ee[a]
    decreases s.landed - s.arrived
  {
    hide AnyRun, Scatter;
    if s.arrived == s.landed {
      steps, t := [], s;
      NoSteps(cs, disk, s);
    } else {
      var c := cs[s.arrived];
      var u := Next(cs, disk, s, Arrive);
      OneStep(cs, disk, s, Arrive);
      ScatterSpares(s.ee, Range(c.dest, c.size), s.buffer[c.src..c.src + c.size], a);
      var rest;
      rest, t := ArriveAll(cs, disk, u, a);
      RunsJoin(cs, disk, s, [Arrive], u, rest, t);
      steps := [Arrive] + rest;
    }
  }

  lemma {:induction false} ScatterSpares(ee: Memory, addrs: seq<nat>, data: seq<Byte>, a: nat)
    requires |addrs| == |data|
    ensures a in ee && a !in addrs ==> a in Scatter(ee, addrs, data) && Scatter(ee, addrs, data)[a] == ee[a]
    decreases |addrs|
  {
    if addrs != [] { ScatterSpares(ee[addrs[0] := data[0]], addrs[1..], data[1..], a); }
  }

  /** Nothing makes a chunk wait for the third before it. If that arrives only after the chunk has been moved, what
      arrives can be the later chunk's bytes: here the third chunk is late for the sixth. */
  lemma {:induction false} LateChunkIsWrong(a: nat, b: nat, ee: Memory, buffer: Buffer)
    returns (disk: seq<Byte>, steps: seq<Step>, t: State)
    ensures var sgs := [Sg(a, 16512), Sg(b, 65536)];
            var cs := Reads(sgs, 0);
            && |disk| == |SgBytes(sgs)| && Feasible(cs, disk)
            && AnyRun(cs, disk, State(buffer, ee, 0, 0, 0), steps, t) && t.arrived == |cs|
            && t.ee != Scatter(ee, SgBytes(sgs), disk)
  {
    var sgs, cs := [Sg(a, 16512), Sg(b, 65536)], SixChunks(a, b);
    hide Reads, SgBytes, AnyRun, Scatter, SixChunks;
    disk := seq(65664, _ => 0) + seq(CHUNK, _ => 1);
    ThirdChunkMayBeHit(a, b);
    LateBytes(a, b);
    ReadsAreFeasible(sgs, 0, disk);
    LateSectors(a, b);
    var s0 := State(buffer, ee, 0, 0, 0);
    var r1, s1 := LandChunks(cs, disk, s0, 2);
    var r2, s2 := ArriveAll(cs, disk, s1, b);
    var r3, s3 := LandChunks(cs, disk, s2, 6);
    LateArrival(a, b, disk, s3);
    var s4 := Next(cs, disk, s3, Arrive);
    OneStep(cs, disk, s3, Arrive);
    var r5;
    r5, t := ArriveAll(cs, disk, s4, b);
    RunsJoin(cs, disk, s0, r1, s1, r2, s2);
    RunsJoin(cs, disk, s0, r1 + r2, s2, r3, s3);
    RunsJoin(cs, disk, s0, r1 + r2 + r3, s3, [Arrive], s4);
    RunsJoin(cs, disk, s0, r1 + r2 + r3 + [Arrive], s4, r5, t);
    steps := r1 + r2 + r3 + [Arrive] + r5;
    PlainByte(a, b, disk, ee);
  }

  lemma {:induction false} LateBytes(a: nat, b: nat)
    ensures SgBytes([Sg(a, 16512), Sg(b, 65536)]) == Range(a, 16512) + Range(b, 65536)
  {
    var rest := [Sg(b, 65536)];
    assert [Sg(a, 16512), Sg(b, 65536)][1..] == rest && rest[1..] == [];
    assert SgBytes(rest) == Range(b, 65536) + SgBytes([]);
    assert Range(b, 65536) + [] == Range(b, 65536);
  }

  lemma {:induction false} LateSectors(a: nat, b: nat)
    ensures var cs := SixChunks(a, b);
            Whole(cs) && |cs| == 6 && cs[5] == Chunk(CHUNK, b + 3 * CHUNK, CHUNK)
    ensures var cs := SixChunks(a, b); forall k | 3 <= k < 6 :: b !in Range(cs[k].dest, cs[k].size)
  {
  }

  /** When the third chunk arrives, the sixth is in the buffer. */
  lemma {:induction false} LateArrival(a: nat, b: nat, disk: seq<Byte>, s: State)
    requires var cs := SixChunks(a, b);
             Feasible(cs, disk) && disk == seq(65664, _ => 0) + seq(CHUNK, _ => 1)
             && s.landed == 6 && s.arrived == 2 && InBuffer(cs, disk, s.buffer, 5, CHUNK)
    ensures var cs := SixChunks(a, b);
            Possible(cs, s, Arrive) && var ee := Next(cs, disk, s, Arrive).ee; b in ee && ee[b] == 1
  {
    var cs := SixChunks(a, b);
    var part := s.buffer[16512..16512 + CHUNK];
    SixOffsets(a, b);
    assert s.buffer[CHUNK..CHUNK + CHUNK] == disk[65664..65664 + CHUNK];
    assert part[0] == s.buffer[CHUNK..CHUNK + CHUNK][128] == disk[65664..65664 + CHUNK][128] == 1;
    FirstByte(s.ee, b, CHUNK, part);
  }

  lemma {:induction false} SixOffsets(a: nat, b: nat)
    ensures Offset(SixChunks(a, b), 5) == 65664
  {
    var cs := SixChunks(a, b);
    assert Offset(cs, 1) == CHUNK && Offset(cs, 2) == 16512 && Offset(cs, 3) == 32896 && Offset(cs, 4) == 49280;
  }

  lemma {:induction false} FirstByte(ee: Memory, addr: nat, n: nat, data: seq<Byte>)
    requires 0 < n == |data|
    ensures var t := Scatter(ee, Range(addr, n), data); addr in t && t[addr] == data[0]
  {
    ScatterMeans(ee, Range(addr, n), data);
    assert Range(addr, n)[0] == addr;
  }

  lemma {:induction false} PlainByte(a: nat, b: nat, disk: seq<Byte>, ee: Memory)
    requires |disk| == 82048 && disk[16512] == 0
    ensures var plain := Scatter(ee, Range(a, 16512) + Range(b, 65536), disk); b in plain && plain[b] == 0
  {
    hide Scatter;
    assert disk == disk[..16512] + disk[16512..];
    ScatterAppend(ee, Range(a, 16512), Range(b, 65536), disk[..16512], disk[16512..]);
    FirstByte(Scatter(ee, Range(a, 16512), disk[..16512]), b, 65536, disk[16512..]);
  }

  // ---------- writes ----------

  /** What the disk gets of a write: the whole blocks of each chunk, out of a memory that does not change meanwhile. */
  function Written(mem: nat -> Byte, cs: seq<Chunk>): seq<Byte>
  {
    if cs == [] then [] else Bytes(mem, Range(cs[0].src, cs[0].Carried())) + Written(mem, cs[1..])
  }

  function Bytes(mem: nat -> Byte, addrs: seq<nat>): seq<Byte>
  {
    seq(|addrs|, i requires 0 <= i < |addrs| => mem(addrs[i]))
  }

  lemma {:induction false} BytesJoin(mem: nat -> Byte, a: seq<nat>, b: seq<nat>)
    ensures Bytes(mem, a + b) == Bytes(mem, a) + Bytes(mem, b)
  {
  }

  lemma {:induction false} WrittenLength(mem: nat -> Byte, cs: seq<Chunk>)
    ensures |Written(mem, cs)| <= |ChunkBytes(cs)|
    ensures |Written(mem, cs)| == |ChunkBytes(cs)| <==> Whole(cs)
  {
    if cs != [] {
      WrittenLength(mem, cs[1..]);
      assert cs == [cs[0]] + cs[1..];
      WholeCons(cs[0], cs[1..]);
    }
  }

  lemma {:induction false} WholeIsWritten(mem: nat -> Byte, cs: seq<Chunk>)
    requires Whole(cs) && forall k | 0 <= k < |cs| :: cs[k].src == cs[k].dest
    ensures Written(mem, cs) == Bytes(mem, ChunkBytes(cs))
  {
    if cs != [] {
      WholeIsWritten(mem, cs[1..]);
      BytesJoin(mem, Range(cs[0].dest, cs[0].size), ChunkBytes(cs[1..]));
    }
  }

  lemma {:induction false} WritesInPlace(todo: seq<Sg>)
    ensures forall k | 0 <= k < |Writes(todo)| :: Writes(todo)[k].src == Writes(todo)[k].dest
    decreases |todo|, if todo == [] then 0 else todo[0].size
  {
    if todo != [] { WritesInPlace(Rest(todo)); }
  }

  /** The engine moves all of a write exactly when every entry of the list has whole blocks. */
  lemma {:induction false} WritesWholeIff(todo: seq<Sg>)
    ensures Whole(Writes(todo)) <==> Sectors(todo)
    decreases |todo|, if todo == [] then 0 else todo[0].size
  {
    hide Whole;
    if todo == [] {
      WholeNothing();
    } else {
      SectorsRest(todo);
      WritesWholeIff(Rest(todo));
      WholeCons(Chunk(todo[0].addr, todo[0].addr, Min(todo[0].size, CHUNK)), Writes(Rest(todo)));
    }
  }

  /** The disk gets the bytes of the list, in order, exactly if every entry has whole blocks, whatever the memory
      holds. */
  lemma {:induction false} WriteIsPlainIff(todo: seq<Sg>, mem: nat -> Byte)
    ensures Written(mem, Writes(todo)) == Bytes(mem, SgBytes(todo)) <==> Sectors(todo)
  {
    hide Whole, Sectors, Written, Writes, SgBytes, ChunkBytes;
    var cs := Writes(todo);
    WritesTile(todo);
    WritesWholeIff(todo);
    WrittenLength(mem, cs);
    if Sectors(todo) {
      WritesInPlace(todo);
      WholeIsWritten(mem, cs);
    }
  }
}
