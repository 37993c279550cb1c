/** What a PATA command is meant to do, as values: the chunks it is cut into, and where each of them goes. */
module PataPlan {
  import opened BumpRing
  import DmaQueue
  import opened Sequences

  const CHUNK := 16384   // BUFFER_MAX_TRANSFER_SIZE and ATA_MAX_TRANSFER_SIZE
  const BUFFER := 65536  // DATA_BUFFER_SIZE

  /** An entry of the scatter/gather list. */
  datatype Sg = Sg(addr: nat, size: nat)

  type Size = x: int | 0 <= x <= CHUNK

  /** A piece of work: size bytes between src, an offset in the IOP data buffer, and dest, an EE address. */
  datatype Chunk = Chunk(src: nat, dest: nat, size: Size)
  {
    /** What the engine moves of it: the whole blocks. There is no PIO for the rest. */
    function Carried(): (n: nat)
      ensures n <= size && (n == size <==> size % 128 == 0)
    {
      DmaQueue.BlocksExactBelow8M(size);
      128 * DmaQueue.Blocks(size)
    }
  }

  function Min(a: nat, b: nat): nat
  {
    if a < b then a else b
  }

  /** What is left of a list when the next chunk of its first entry is done. */
  function Rest(todo: seq<Sg>): seq<Sg>
    requires todo != []
  {
    var n := Min(todo[0].size, CHUNK);
    if todo[0].size > n then [Sg(todo[0].addr + n, todo[0].size - n)] + todo[1..] else todo[1..]
  }

  /** The chunks of a read of what is left of a list, when the data buffer is filled up to ptr. An empty entry has one
      chunk too. */
  function Reads(todo: seq<Sg>, ptr: nat): seq<Chunk>
    requires ptr <= BUFFER
    decreases |todo|, if todo == [] then 0 else todo[0].size
  {
    if todo == [] then []
    else
      var n := Min(todo[0].size, CHUNK);
      var src := Place(BUFFER, ptr, n);
      [Chunk(src, todo[0].addr, n)] + Reads(Rest(todo), src + n)
  }

  /** The chunks of a write, which go directly between the given addresses and the disk. */
  function Writes(todo: seq<Sg>): seq<Chunk>
    decreases |todo|, if todo == [] then 0 else todo[0].size
  {
    if todo == [] then []
    else [Chunk(todo[0].addr, todo[0].addr, Min(todo[0].size, CHUNK))] + Writes(Rest(todo))
  }

  /** A write goes no further than its first entry at address 0, whose completion is taken for something else. */
  function Reached(sgs: seq<Sg>): seq<Sg>
  {
    if sgs == [] then [] else [sgs[0]] + if sgs[0].addr == 0 then [] else Reached(sgs[1..])
  }

  /** The first entry at address 0 has a full block. */
  predicate Stuck(sgs: seq<Sg>)
  {
    sgs != [] && if sgs[0].addr == 0 then sgs[0].size >= 128 else Stuck(sgs[1..])
  }

  /** The DMA queue completes the request for a chunk: at address 0 it does so only if there is no full block to wait
      for (Dev9Dma.Driver.NullTransfer and StayJammed). The data buffer of reads is not at address 0. */
  predicate Completes(c: Chunk, write: bool)
  {
    write && c.dest == 0 ==> DmaQueue.Blocks(c.size) == 0
  }

  predicate AllComplete(cs: seq<Chunk>, write: bool)
  {
    forall k | 0 <= k < |cs| :: Completes(cs[k], write)
  }

  predicate NoNullEntry(sgs: seq<Sg>)
  {
    forall i | 0 <= i < |sgs| :: sgs[i].addr != 0
  }

  lemma {:induction false} ReachedIsAllIff(sgs: seq<Sg>)
    ensures Reached(sgs) <= sgs
    ensures Reached(sgs) == sgs <==> NoNullEntry(sgs[..if sgs == [] then 0 else |sgs| - 1])
    decreases |sgs|
  {
    if sgs != [] {
      ReachedIsAllIff(sgs[1..]);
      assert sgs == [sgs[0]] + sgs[1..];
      if |sgs| > 1 {
        var front := sgs[..|sgs| - 1];
        assert front == [sgs[0]] + sgs[1..][..|sgs| - 2];
        assert Reached(sgs) == sgs ==> sgs[0].addr != 0 && Reached(sgs[1..]) == sgs[1..];
      }
    }
  }

  /** What the first entry at address 0 decides. */
  lemma {:induction false} FirstNullEntry(sgs: seq<Sg>, i: nat)
    requires i < |sgs| && sgs[i].addr == 0 && forall j | 0 <= j < i :: sgs[j].addr != 0
    ensures Reached(sgs) == sgs[..i + 1] && (Stuck(sgs) <==> sgs[i].size >= 128)
    decreases i
  {
    assert sgs[..i + 1] == [sgs[0]] + sgs[1..][..i];
    if i > 0 {
      assert sgs[1..][i - 1] == sgs[i];
      FirstNullEntry(sgs[1..], i - 1);
    }
  }

  lemma {:induction false} AllCompleteCons(c: Chunk, rest: seq<Chunk>, write: bool)
    ensures AllComplete([c] + rest, write) <==> Completes(c, write) && AllComplete(rest, write)
  {
    assert ([c] + rest)[0] == c;
    assert forall k | 0 <= k < |rest| :: rest[k] == ([c] + rest)[k + 1];
  }

  /** The chunks of an entry that is not at address 0 complete. */
  lemma {:induction false} EntryCompletes(sg: Sg, more: seq<Sg>)
    requires sg.addr != 0
    ensures AllComplete(Writes([sg] + more), true) <==> AllComplete(Writes(more), true)
    decreases sg.size
  {
    hide AllComplete, Writes;
    var n := Min(sg.size, CHUNK);
    FirstOfWrites(sg, more);
    if sg.size > n {
      AllCompleteCons(Chunk(sg.addr, sg.addr, n), Writes([Sg(sg.addr + n, sg.size - n)] + more), true);
      EntryCompletes(Sg(sg.addr + n, sg.size - n), more);
    } else {
      AllCompleteCons(Chunk(sg.addr, sg.addr, n), Writes(more), true);
    }
  }

  lemma {:induction false} FirstOfWrites(sg: Sg, more: seq<Sg>)
    ensures var n := Min(sg.size, CHUNK);
            Writes([sg] + more)
            == [Chunk(sg.addr, sg.addr, n)]
              + Writes(if sg.size > n then [Sg(sg.addr + n, sg.size - n)] + more else more)
  {
    assert ([sg] + more)[1..] == more;
  }

  /** All of a write's requests complete exactly if its first entry at address 0, if any, has less than a block. */
  lemma {:induction false} WritesCompleteIff(sgs: seq<Sg>)
    ensures AllComplete(Writes(Reached(sgs)), true) <==> !Stuck(sgs)
  {
    hide AllComplete, Writes, Completes;
    if sgs == [] {
      NothingToWrite();
    } else if sgs[0].addr != 0 {
      WritesCompleteIff(sgs[1..]);
      EntryCompletes(sgs[0], Reached(sgs[1..]));
    } else {
      NullEntryCompletes(sgs[0]);
      assert [sgs[0]] + [] == [sgs[0]];
    }
  }

  lemma {:induction false} NothingToWrite()
    ensures Writes([]) == [] && AllComplete([], true)
  {
  }

  lemma {:induction false} NullEntryCompletes(sg: Sg)
    requires sg.addr == 0
    ensures AllComplete(Writes([sg]), true) <==> sg.size < 128
  {
    FirstOfWrites(sg, []);
    assert [sg] + [] == [sg];
    var n := Min(sg.size, CHUNK);
    DmaQueue.BlocksExactBelow8M(n);
    assert Writes([sg])[0] == Chunk(0, 0, n);
    if n < 128 { assert Writes([sg]) == [Chunk(0, 0, n)] + Writes([]); }
  }

  /** The chunks of a whole command. */
  function Plan(write: bool, sgs: seq<Sg>, ptr: nat): seq<Chunk>
    requires ptr <= BUFFER
  {
    if write then Writes(Reached(sgs)) else Reads(sgs, ptr)
  }

  // ---------- tiling ----------

  /** The addresses from addr on, in order. */
  function Range(addr: nat, size: nat): seq<nat>
  {
    seq(size, i requires 0 <= i < size => addr + i)
  }

  function SgBytes(sgs: seq<Sg>): seq<nat>
  {
    if sgs == [] then [] else Range(sgs[0].addr, sgs[0].size) + SgBytes(sgs[1..])
  }

  function ChunkBytes(cs: seq<Chunk>): seq<nat>
  {
    if cs == [] then [] else Range(cs[0].dest, cs[0].size) + ChunkBytes(cs[1..])
  }

  /** How many chunks an entry has. */
  function Parts(size: nat): nat
  {
    if size == 0 then 1 else (size + CHUNK - 1) / CHUNK
  }

  /** Chunk k of an entry. */
  predicate IsPart(c: Chunk, sg: Sg, k: nat)
  {
    c.dest == sg.addr + 16384 * k && 16384 * k <= sg.size && c.size == Min(16384, sg.size - 16384 * k)
  }

  /** An entry is cut every 16 KB, and the next one begins where it ends. */
  lemma {:induction false} WritesCut(sg: Sg, more: seq<Sg>)
    ensures var cs, n := Writes([sg] + more), Parts(sg.size);
            && n <= |cs| && cs[n..] == Writes(more)
            && forall k | 0 <= k < n :: IsPart(cs[k], sg, k) && cs[k].src == cs[k].dest
    decreases sg.size
  {
    FirstOfWrites(sg, more);
    hide Writes;
    var cs := Writes([sg] + more);
    if sg.size > CHUNK {
      var left := Sg(sg.addr + CHUNK, sg.size - CHUNK);
      WritesCut(left, more);
      forall k | 0 <= k < Parts(sg.size)
        ensures IsPart(cs[k], sg, k) && cs[k].src == cs[k].dest
      {
        if k > 0 { assert cs[k] == cs[1..][k - 1] && IsPart(cs[k], left, k - 1); }
      }
    }
  }

  /** A read is cut like a write. */
  lemma {:induction false} ReadsCut(todo: seq<Sg>, ptr: nat, k: nat)
    requires ptr <= BUFFER
    ensures var cs, ws := Reads(todo, ptr), Writes(todo);
            |cs| == |ws| && (k < |cs| ==> cs[k].dest == ws[k].dest && cs[k].size == ws[k].size)
    decreases |todo|, if todo == [] then 0 else todo[0].size
  {
    if todo != [] {
      var c := Reads(todo, ptr)[0];
      ReadsCut(Rest(todo), c.src + c.size, if k == 0 then 0 else k - 1);
    }
  }

  /** A chunk is right behind the one before it, unless it would run over the end of the data buffer there. */
  lemma {:induction false} ReadsGoBackIff(todo: seq<Sg>, ptr: nat, k: nat)
    requires ptr <= 65536 && k < |Reads(todo, ptr)|
    ensures var cs := Reads(todo, ptr);
            var end := if k == 0 then ptr else cs[k - 1].src + cs[k - 1].size;
            cs[k].src == if end + cs[k].size > 65536 then 0 else end
    decreases k
  {
    if k > 0 {
      var cs := Reads(todo, ptr);
      ReadsGoBackIff(Rest(todo), cs[0].src + cs[0].size, k - 1);
    }
  }

  /** What holds of one list of reads holds of those of several commands, one after the other. */
  lemma {:induction false} ReadsJoin(a: seq<Sg>, b: seq<Sg>, ptr: nat)
    requires ptr <= BUFFER
    ensures var cs := Reads(a, ptr);
            var end := if cs == [] then ptr else cs[|cs| - 1].src + cs[|cs| - 1].size;
            end <= BUFFER && Reads(a + b, ptr) == cs + Reads(b, end)
    decreases |a|, if a == [] then 0 else a[0].size
  {
    hide Reads, Place;
    if a == [] {
      assert a + b == b;
      NoReads(ptr);
      assert [] + Reads(b, ptr) == Reads(b, ptr);
    } else {
      ReadsStep(a, ptr);
      ReadsStep(a + b, ptr);
      var c := Reads(a, ptr)[0];
      var more := Reads(Rest(a), c.src + c.size);
      assert (a + b)[1..] == a[1..] + b;
      RestJoin(a, b);
      ReadsJoin(Rest(a), b, c.src + c.size);
      if more != [] { assert ([c] + more)[|more|] == more[|more| - 1]; }
      Consed(c, more, Reads(b, if more == [] then c.src + c.size else more[|more| - 1].src + more[|more| - 1].size));
    }
  }

  lemma {:induction false} NoReads(ptr: nat)
    requires ptr <= BUFFER
    ensures Reads([], ptr) == []
  {
  }

  lemma {:induction false} ReadsStep(todo: seq<Sg>, ptr: nat)
    requires ptr <= BUFFER && todo != []
    ensures var n := Min(todo[0].size, CHUNK);
            var src := Place(BUFFER, ptr, n);
            src + n <= BUFFER && Reads(todo, ptr) == [Chunk(src, todo[0].addr, n)] + Reads(Rest(todo), src + n)
  {
  }

  lemma {:induction false} Consed(c: Chunk, more: seq<Chunk>, rest: seq<Chunk>)
    ensures [c] + (more + rest) == ([c] + more) + rest
  {
  }

  lemma {:induction false} RestJoin(a: seq<Sg>, b: seq<Sg>)
    requires a != []
    ensures Rest(a + b) == Rest(a) + b
  {
    assert (a + b)[0] == a[0];
    assert (a + b)[1..] == a[1..] + b;
    hide Min;
  }

  lemma {:induction false} RangeSplits(addr: nat, n: nat, rest: nat)
    ensures Range(addr, n + rest) == Range(addr, n) + Range(addr + n, rest)
  {
  }

  lemma {:induction false} BytesCons(sg: Sg, more: seq<Sg>)
    ensures SgBytes([sg] + more) == Range(sg.addr, sg.size) + SgBytes(more)
  {
    assert ([sg] + more)[1..] == more;
  }

  /** The next chunk and what is left make up what there was. */
  lemma {:induction false} RestTiles(todo: seq<Sg>)
    requires todo != []
    ensures Range(todo[0].addr, Min(todo[0].size, CHUNK)) + SgBytes(Rest(todo)) == SgBytes(todo)
  {
    hide Range, SgBytes;
    var sg, more, n := todo[0], todo[1..], Min(todo[0].size, CHUNK);
    assert todo == [sg] + more;
    BytesCons(sg, more);
    if sg.size > n {
      var left := Sg(sg.addr + n, sg.size - n);
      BytesCons(left, more);
      RangeSplits(sg.addr, n, left.size);
      Regroup(Range(sg.addr, n), Range(left.addr, left.size), SgBytes(more));
    }
  }

  lemma {:induction false} TileCons(c: Chunk, rest: seq<Chunk>)
    ensures ChunkBytes([c] + rest) == Range(c.dest, c.size) + ChunkBytes(rest)
  {
    assert ([c] + rest)[1..] == rest;
  }

  /** The chunks touch exactly the bytes of the list, in its order, without gap or overlap. */
  lemma {:induction false} ReadsTile(todo: seq<Sg>, ptr: nat)
    requires ptr <= BUFFER
    ensures ChunkBytes(Reads(todo, ptr)) == SgBytes(todo)
    decreases |todo|, if todo == [] then 0 else todo[0].size
  {
    hide ChunkBytes, SgBytes;
    if todo == [] {
      NoBytes();
    } else {
      var n := Min(todo[0].size, CHUNK);
      var src := Place(BUFFER, ptr, n);
      ReadsTile(Rest(todo), src + n);
      RestTiles(todo);
      TileCons(Chunk(src, todo[0].addr, n), Reads(Rest(todo), src + n));
    }
  }

  lemma {:induction false} NoBytes()
    ensures ChunkBytes([]) == SgBytes([])
  {
  }

  lemma {:induction false} WritesTile(todo: seq<Sg>)
    ensures ChunkBytes(Writes(todo)) == SgBytes(todo)
    decreases |todo|, if todo == [] then 0 else todo[0].size
  {
    hide ChunkBytes, SgBytes;
    if todo == [] {
      NoBytes();
    } else {
      WritesTile(Rest(todo));
      RestTiles(todo);
      TileCons(Chunk(todo[0].addr, todo[0].addr, Min(todo[0].size, CHUNK)), Writes(Rest(todo)));
    }
  }

  // ---------- whole blocks ----------

  /** The engine moves all of every chunk. */
  predicate Whole(cs: seq<Chunk>)
  {
    forall k | 0 <= k < |cs| :: cs[k].Carried() == cs[k].size
  }

  predicate Sectors(sgs: seq<Sg>)
  {
    forall i | 0 <= i < |sgs| :: sgs[i].size % 128 == 0
  }

  lemma {:induction false} WholeCons(c: Chunk, rest: seq<Chunk>)
    ensures Whole([c] + rest) <==> c.size % 128 == 0 && Whole(rest)
  {
    assert ([c] + rest)[0] == c;
    assert forall k | 0 <= k < |rest| :: rest[k] == ([c] + rest)[k + 1];
  }

  lemma {:induction false} SectorsCons(sg: Sg, rest: seq<Sg>)
    ensures Sectors([sg] + rest) <==> sg.size % 128 == 0 && Sectors(rest)
  {
    assert ([sg] + rest)[0] == sg;
    assert forall i | 0 <= i < |rest| :: rest[i] == ([sg] + rest)[i + 1];
  }

  lemma {:induction false} SectorsRest(todo: seq<Sg>)
    requires todo != []
    ensures Sectors(todo) <==> Min(todo[0].size, CHUNK) % 128 == 0 && Sectors(Rest(todo))
  {
    hide Sectors;
    assert todo == [todo[0]] + todo[1..];
    SectorsCons(todo[0], todo[1..]);
    if todo[0].size > CHUNK {
      SectorsCons(Sg(todo[0].addr + CHUNK, todo[0].size - CHUNK), todo[1..]);
    }
  }

  /** The engine moves all of a read exactly when every entry of the list has whole blocks. */
  lemma {:induction false} WholeIffSectors(todo: seq<Sg>, ptr: nat)
    requires ptr <= BUFFER
    ensures Whole(Reads(todo, ptr)) <==> Sectors(todo)
    decreases |todo|, if todo == [] then 0 else todo[0].size
  {
    hide Whole;
    if todo == [] {
      WholeNothing();
    } else {
      var n := Min(todo[0].size, CHUNK);
      var src := Place(BUFFER, ptr, n);
      SectorsRest(todo);
      WholeIffSectors(Rest(todo), src + n);
      WholeCons(Chunk(src, todo[0].addr, n), Reads(Rest(todo), src + n));
    }
  }

  lemma {:induction false} WholeNothing()
    ensures Whole([])
  {
  }

  // ---------- the data buffer ----------

  /** The pieces of the data buffer that the chunks take. */
  function Pieces(cs: seq<Chunk>): seq<Piece>
  {
    seq(|cs|, i requires 0 <= i < |cs| => Piece(cs[i].src, cs[i].size, cs[i].size))
  }

  predicate Placed(cs: seq<Chunk>, ptr: nat)
  {
    HandedOut(BUFFER, CHUNK, ptr, Pieces(cs))
  }

  lemma {:induction false} FirstFits(c: Chunk, ptr: nat)
    requires ptr <= BUFFER && c.src == Place(BUFFER, ptr, c.size)
    ensures Fits(BUFFER, CHUNK, ptr, Piece(c.src, c.size, c.size))
  {
  }

  lemma {:induction false} PlacedCons(c: Chunk, rest: seq<Chunk>, ptr: nat)
    requires ptr <= BUFFER && c.size <= CHUNK && c.src == Place(BUFFER, ptr, c.size)
    requires Placed(rest, c.src + c.size)
    ensures Placed([c] + rest, ptr)
  {
    hide Fits, Place, HandedOut;
    FirstFits(c, ptr);
    OneBefore(BUFFER, CHUNK, ptr, Piece(c.src, c.size, c.size), Pieces(rest));
    assert Pieces([c] + rest) == [Piece(c.src, c.size, c.size)] + Pieces(rest);
  }

  lemma {:induction false} ReadsArePlaced(todo: seq<Sg>, ptr: nat)
    requires ptr <= BUFFER
    ensures Placed(Reads(todo, ptr), ptr)
    decreases |todo|, if todo == [] then 0 else todo[0].size
  {
    hide Placed;
    if todo == [] {
      PlacedEmpty(ptr);
    } else {
      var n := Min(todo[0].size, CHUNK);
      var src := Place(BUFFER, ptr, n);
      ReadsArePlaced(Rest(todo), src + n);
      PlacedCons(Chunk(src, todo[0].addr, n), Reads(Rest(todo), src + n), ptr);
    }
  }

  lemma {:induction false} PlacedEmpty(ptr: nat)
    ensures Placed([], ptr)
  {
  }

  /** A chunk is inside the data buffer. */
  lemma {:induction false} ChunkFits(cs: seq<Chunk>, ptr: nat, k: nat)
    requires Placed(cs, ptr) && k < |cs|
    ensures cs[k].src + cs[k].size <= BUFFER
  {
    Each(BUFFER, CHUNK, ptr, Pieces(cs), k);
  }

  /** A chunk does not touch the two chunks before it. */
  lemma {:induction false} TwoChunksSurvive(cs: seq<Chunk>, ptr: nat, j: nat, k: nat)
    requires Placed(cs, ptr) && j < k < |cs| && k - j <= 2
    ensures Disjoint(cs[j].src, cs[j].size, cs[k].src, cs[k].size)
  {
    RoomIsProduct(CHUNK, 4);
    LastPiecesSurvive(BUFFER, CHUNK, ptr, Pieces(cs), 2, j, k);
  }

  /** Three chunks do not survive: after an entry of 16512 bytes the sixth chunk goes over the third. */
  lemma {:induction false} ThirdChunkMayBeHit(a: nat, b: nat)
    ensures var cs := Reads([Sg(a, 16512), Sg(b, 65536)], 0);
            && cs == SixChunks(a, b)
            && !Disjoint(cs[2].src, cs[2].size, cs[5].src, cs[5].size)
  {
    var t0 := [Sg(a, 16512), Sg(b, 65536)];
    var t1 := [Sg(a + CHUNK, 128), Sg(b, 65536)];
    var t2 := [Sg(b, 65536)];
    var t3, t4, t5 := [Sg(b + CHUNK, 3 * CHUNK)], [Sg(b + 2 * CHUNK, 2 * CHUNK)], [Sg(b + 3 * CHUNK, CHUNK)];
    assert Rest(t0) == t1 && Rest(t1) == t2 && Rest(t2) == t3 && Rest(t3) == t4 && Rest(t4) == t5 && Rest(t5) == [];
    assert Reads(t5, CHUNK) == [Chunk(CHUNK, b + 3 * CHUNK, CHUNK)] + Reads([], 2 * CHUNK);
    assert Reads(t4, 49280) == [Chunk(0, b + 2 * CHUNK, CHUNK)] + Reads(t5, CHUNK);
    assert Reads(t3, 32896) == [Chunk(32896, b + CHUNK, CHUNK)] + Reads(t4, 49280);
    assert Reads(t2, 16512) == [Chunk(16512, b, CHUNK)] + Reads(t3, 32896);
    assert Reads(t1, CHUNK) == [Chunk(CHUNK, a + CHUNK, 128)] + Reads(t2, 16512);
    assert Reads(t0, 0) == [Chunk(0, a, CHUNK)] + Reads(t1, CHUNK);
  }

  function SixChunks(a: nat, b: nat): seq<Chunk>
  {
    [Chunk(0, a, CHUNK), Chunk(CHUNK, a + CHUNK, 128), Chunk(16512, b, CHUNK), Chunk(32896, b + CHUNK, CHUNK),
     Chunk(0, b + 2 * CHUNK, CHUNK), Chunk(CHUNK, b + 3 * CHUNK, CHUNK)]
  }
}
