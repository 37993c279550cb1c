/** The three layers of the PATA driver as they change their static records: pata_ps2_cmd.c walks the
    scatter/gather list, pata_ps2_buffer.c cuts reads into pieces of the data buffer, and pata_ps2_ata.c cuts
    transfers into DMA requests. Each counts for itself; that the counts agree is what makes them fit. */
module Pata {
  import opened BumpRing
  import opened PataPlan
  import PataCopy
  import DmaQueue
  import Dev9Dma

  datatype AtaState = Done | Waiting | Transfer

  /** Whom pata_ps2_ata.c calls back. */
  datatype Client = NoClient | CmdLayer | BufferLayer

  /** What the driver asks of the DMA queue and the SIF, and what it tells the EE. */
  datatype Action =
    | Dma(addr: nat, size: Size, toMem: bool)
    | Send(src: nat, dest: nat, size: Size)
    | Finished
    | AtaInterrupt

  datatype Pointer = Null | At(addr: nat)

  /** Going back to the start of the data buffer before the first chunk or while cutting it is the same. */
  lemma {:induction false} ReadsFromPlace(sg: Sg, more: seq<Sg>, ptr: nat)
    requires ptr <= BUFFER
    ensures Reads([sg] + more, Place(BUFFER, ptr, Min(sg.size, CHUNK))) == Reads([sg] + more, ptr)
  {
  }

  lemma {:induction false} FirstRead(sg: Sg, more: seq<Sg>, ptr: nat)
    requires ptr <= BUFFER
    ensures var n := Min(sg.size, CHUNK);
            var src := Place(BUFFER, ptr, n);
            var todo := Reads([sg] + more, ptr);
            todo != [] && todo[0] == Chunk(src, sg.addr, n) && todo[1..] == Reads(Left(sg, more), src + n)
  {
    assert ([sg] + more)[1..] == more;
  }

  lemma {:induction false} FirstWrite(sg: Sg, more: seq<Sg>)
    ensures var todo := Writes([sg] + more);
            && todo != [] && todo[0] == Chunk(sg.addr, sg.addr, Min(sg.size, CHUNK))
            && todo[1..] == Writes(Left(sg, more))
  {
    assert ([sg] + more)[1..] == more;
  }

  lemma {:induction false} WholeChunkCompletes(addr: nat)
    ensures Completes(Chunk(addr, addr, CHUNK), true) ==> addr != 0
  {
    DmaQueue.BlocksExactBelow8M(CHUNK);
  }

  /** The plan for what is left of a list begins with the first chunk of its first entry. */
  lemma {:induction false} ReadPlan(sgs: seq<Sg>, i: nat, ptr: nat)
    requires i < |sgs| && ptr <= BUFFER
    ensures var sg, todo := sgs[i], Plan(false, sgs[i..], ptr);
            var src := Place(BUFFER, ptr, Min(sg.size, CHUNK));
            && todo == Reads([sg] + sgs[i + 1..], src) && todo != []
            && todo[0] == Chunk(src, sg.addr, Min(sg.size, CHUNK))
  {
    assert sgs[i..] == [sgs[i]] + sgs[i + 1..];
    FirstRead(sgs[i], sgs[i + 1..], ptr);
    ReadsFromPlace(sgs[i], sgs[i + 1..], ptr);
  }

  lemma {:induction false} PlanOfRead(sgs: seq<Sg>, ptr: nat)
    requires ptr <= BUFFER
    ensures Plan(false, sgs, ptr) == Reads(sgs, ptr)
  {
  }

  lemma {:induction false} WritePlan(sgs: seq<Sg>, i: nat, ptr: nat)
    requires i < |sgs| && ptr <= BUFFER
    ensures var sg, todo := sgs[i], Plan(true, sgs[i..], ptr);
            && todo == Writes([sg] + if sg.addr == 0 then [] else Reached(sgs[i + 1..])) && todo != []
            && todo[0] == Chunk(sg.addr, sg.addr, Min(sg.size, CHUNK))
  {
    assert sgs[i..][0] == sgs[i] && sgs[i..][1..] == sgs[i + 1..];
    FirstWrite(sgs[i], if sgs[i].addr == 0 then [] else Reached(sgs[i + 1..]));
  }

  /** When an entry of a write is done the rest of the plan is that of the next entries, unless it was at address 0. */
  lemma {:induction false} LastChunk(sgs: seq<Sg>, i: nat, ptr: nat)
    requires i < |sgs| && NoNullEntry(sgs[..i]) && ptr <= BUFFER
    ensures if sgs[i].addr == 0 then !NoNullEntry(sgs) && Writes([]) == []
            else NoNullEntry(sgs[..i + 1]) && Plan(true, sgs[i + 1..], ptr) == Writes(Reached(sgs[i + 1..]))
  {
    assert sgs[..i + 1] == sgs[..i] + [sgs[i]];
  }

  /** What is left after the next chunk of an entry. */
  function Left(sg: Sg, more: seq<Sg>): seq<Sg>
  {
    var n := Min(sg.size, CHUNK);
    if sg.size > n then [Sg(sg.addr + n, sg.size - n)] + more else more
  }

  /** The DMA request for a chunk. */
  function Request(c: Chunk, write: bool): Action
  {
    Dma(c.src, c.size, !write)
  }

  /** A log after a chunk is done: a read sends it to its place; the end of a write's chunk at address 0 is taken for
      the disk's interrupt. */
  function Told(log: seq<Action>, c: Chunk, write: bool): seq<Action>
  {
    if !write then log + [Send(c.src, c.dest, c.size)] else if c.dest == 0 then log + [AtaInterrupt] else log
  }

  /** A log after a whole plan: each chunk is asked for and, if its request completes, told about, and last is told at
      the end. A request that does not complete is the last of all. */
  function Played(log: seq<Action>, plan: seq<Chunk>, write: bool, last: seq<Action>): seq<Action>
    decreases |plan|
  {
    if plan == [] then log + last
    else
      var asked := log + [Request(plan[0], write)];
      if Completes(plan[0], write) then Played(Told(asked, plan[0], write), plan[1..], write, last) else asked
  }

  /** Where the data buffer is filled up to after a plan: behind the last chunk of a read. */
  function PlanEnd(plan: seq<Chunk>, write: bool, ptr: nat): nat
  {
    if write || plan == [] then ptr else plan[|plan| - 1].src + plan[|plan| - 1].size
  }

  /** How a command ends: with its completion, unless a write has stopped at an entry at address 0. */
  function Ending(write: bool, sgs: seq<Sg>): seq<Action>
  {
    if write && !NoNullEntry(sgs) then [] else [Finished]
  }

  class Driver {
    // pata_ps2_cmd.c
    var write: bool
    var sgs: seq<Sg>
    var sgIndex: nat
    var cmdAddr: nat
    var cmdLeft: nat

    // pata_ps2_buffer.c
    var bufPtr: nat
    var bufLeft: nat
    var bufXfer: Size

    // pata_ps2_ata.c
    var state: AtaState
    var ataAddr: nat
    var ataLeft: nat
    var ataXfer: Size
    var ataWrite: bool
    var client: Client

    // the outside
    var log: seq<Action>
    var errors: nat

    constructor ()
      ensures Idle() && bufPtr == 0 && log == [] && errors == 0
    {
      write, sgs, sgIndex, cmdAddr, cmdLeft := false, [], 0, 0, 0;
      bufPtr, bufLeft, bufXfer := 0, 0, 0;
      state, ataAddr, ataLeft, ataXfer, ataWrite, client := Done, 0, 0, 0, false, NoClient;
      log, errors := [], 0;
    }

    /** No transfer is under way. */
    ghost predicate Idle()
      reads this
    {
      state == Done && bufLeft == 0 && bufPtr <= BUFFER
    }

    /** A read is under way, and the three layers agree on what is left of the current entry. */
    ghost predicate Reading()
      reads this
    {
      !write && sgIndex < |sgs| && cmdLeft == bufLeft && BufferStarted()
    }

    /** A write is under way, and the two layers agree. */
    ghost predicate Writing()
      reads this
    {
      && write && ataWrite && client == CmdLayer && state == Transfer
      && sgIndex < |sgs| && NoNullEntry(sgs[..sgIndex])
      && ataXfer == Min(ataLeft, CHUNK) && bufLeft == 0 && bufPtr <= BUFFER
      && Agreed(ataAddr, ataLeft)
    }

    /** The upper layer of a write agrees that left bytes are to go to addr. */
    ghost predicate Agreed(addr: nat, left: nat)
      requires sgIndex < |sgs|
      reads this`sgs, this`sgIndex, this`cmdAddr, this`cmdLeft
    {
      cmdLeft == left && cmdAddr == addr && (addr == 0 <==> sgs[sgIndex].addr == 0)
    }

    /** What comes after the current entry. */
    ghost function Beyond(): seq<Sg>
      requires sgIndex < |sgs|
      reads this`write, this`sgs, this`sgIndex
    {
      if !write then sgs[sgIndex + 1..] else if sgs[sgIndex].addr == 0 then [] else Reached(sgs[sgIndex + 1..])
    }

    /** The chunks still to be done, the one that the DMA queue has first. */
    ghost function Work(): seq<Chunk>
      requires Reading() || Writing()
      reads this
    {
      if write then Writes([Sg(ataAddr, ataLeft)] + Beyond()) else Reads([Sg(cmdAddr, cmdLeft)] + Beyond(), bufPtr)
    }

    /** Either the chunks of todo are still to be done and the first has just been asked of the DMA queue, or
        there are none and the end of the command has been told. ptr is where the data buffer is filled up to. */
    ghost predicate Began(todo: seq<Chunk>, before: seq<Action>, ptr: nat)
      reads this
    {
      if todo == [] then
        Idle() && log == before + Ending(write, sgs) && bufPtr == ptr
      else
        && state == Transfer && (if write then Writing() && bufPtr == ptr else Reading())
        && Work() == todo
        && log == before + [Request(todo[0], write)]
    }

    twostate predicate Started(todo: seq<Chunk>, before: seq<Action>, ptr: nat)
      reads this
    {
      && write == old(write) && sgs == old(sgs) && errors == old(errors)
      && Began(todo, before, ptr)
    }

    // ---------- pata_ps2_ata.c ----------

    method AtaTransfer(addr: nat, size: nat, write: bool, client: Client)
      modifies this`ataAddr, this`ataLeft, this`ataXfer, this`ataWrite, this`client, this`state, this`log, this`errors
      ensures old(state) != Done ==> errors == old(errors) + 1 && log == old(log) && state == old(state)
      ensures old(state) == Done ==>
                && errors == old(errors) && state == Transfer
                && ataAddr == addr && ataLeft == size && ataXfer == Min(size, CHUNK)
                && ataWrite == write && this.client == client
                && log == old(log) + [Dma(addr, ataXfer, !write)]
    {
      if state != Done {
        errors := errors + 1;
        return;
      }
      ataAddr, ataLeft, ataWrite, this.client := addr, size, write, client;
      state := Waiting;
      AtaStart();
    }

    method AtaStart()
      modifies this`ataXfer, this`state, this`log, this`errors
      ensures old(state) != Waiting ==>
                errors == old(errors) + 1 && log == old(log) && state == old(state) && ataXfer == old(ataXfer)
      ensures old(state) == Waiting ==>
                && errors == old(errors) && state == Transfer && ataXfer == Min(ataLeft, CHUNK)
                && log == old(log) + [Dma(ataAddr, ataXfer, !ataWrite)]
    {
      if state != Waiting {
        errors := errors + 1;
        return;
      }
      ataXfer := Min(ataLeft, CHUNK);
      state := Transfer;
      log := log + [Dma(ataAddr, ataXfer, !ataWrite)];
    }

    // ---------- pata_ps2_buffer.c ----------

    method BufferRead(size: nat)
      requires Idle()
      modifies this
      ensures bufLeft == size && BufferStarted()
      ensures unchanged(`write, `sgs, `sgIndex, `cmdAddr, `cmdLeft, `errors)
      ensures bufPtr == Place(BUFFER, old(bufPtr), bufXfer)
      ensures log == old(log) + [Dma(bufPtr, bufXfer, true)]
    {
      bufLeft := size;
      BufferStart();
    }

    /** The buffer layer and the layer below are at work on the next piece. */
    ghost predicate BufferStarted()
      reads this
    {
      && !ataWrite && client == BufferLayer && state == Transfer
      && bufXfer == Min(bufLeft, CHUNK) == ataLeft == ataXfer
      && ataAddr == bufPtr == Place(BUFFER, bufPtr, bufXfer) && bufPtr <= BUFFER
    }

    method BufferStart()
      requires state == Done && bufPtr <= BUFFER
      modifies this
      ensures BufferStarted()
      ensures unchanged(`write, `sgs, `sgIndex, `cmdAddr, `cmdLeft, `bufLeft, `errors)
      ensures bufPtr == Place(BUFFER, old(bufPtr), bufXfer)
      ensures log == old(log) + [Dma(bufPtr, bufXfer, true)]
    {
      bufXfer := Min(bufLeft, CHUNK);
      if BUFFER - bufPtr < bufXfer {
        bufPtr := 0;
      }
      AtaTransfer(bufPtr, bufXfer, false, BufferLayer);
    }

    // ---------- pata_ps2_cmd.c ----------

    method StartSg()
      requires Idle() && sgIndex <= |sgs| && (write ==> NoNullEntry(sgs[..sgIndex]))
      modifies this
      ensures Started(Plan(write, old(sgs)[old(sgIndex)..], old(bufPtr)), old(log), old(bufPtr))
    {
      if sgIndex < |sgs| {
        hide Plan, NoNullEntry, Driver.Work, Driver.Reading, Driver.Writing;
        if !write {
          StartRead(sgs[sgIndex]);
        } else {
          StartWrite(sgs[sgIndex]);
        }
      } else {
        assert sgs[..sgIndex] == sgs && sgs[sgIndex..] == [];
        assert Plan(write, [], bufPtr) == [];
        hide Plan, NoNullEntry;
        log := log + [Finished];
      }
    }

    /** The part of _start_sg for an entry to be read. */
    method StartRead(sg: Sg)
      requires Idle() && !write && sgIndex < |sgs| && sg == sgs[sgIndex]
      modifies this
      ensures Reading() && Work() == Plan(write, sgs[sgIndex..], old(bufPtr)) != []
      ensures log == old(log) + [Request(Work()[0], write)]
      ensures unchanged(`write, `sgs, `sgIndex, `errors)
    {
      hide Plan, Reads, Place;
      ReadPlan(sgs, sgIndex, bufPtr);
      cmdAddr := sg.addr;
      cmdLeft := sg.size;
      BufferRead(sg.size);
    }

    /** The part of it for an entry to be written. */
    method StartWrite(sg: Sg)
      requires Idle() && write && sgIndex < |sgs| && sg == sgs[sgIndex] && NoNullEntry(sgs[..sgIndex])
      modifies this
      ensures Writing() && Work() == Plan(write, sgs[sgIndex..], old(bufPtr)) != []
      ensures log == old(log) + [Request(Work()[0], write)]
      ensures unchanged(`write, `sgs, `sgIndex, `bufPtr, `errors)
    {
      hide Plan, Writes, Reached, NoNullEntry;
      WritePlan(sgs, sgIndex, bufPtr);
      cmdAddr := sg.addr;
      cmdLeft := sg.size;
      AtaTransfer(sg.addr, sg.size, write, CmdLayer);
    }

    method CmdCallback(p: Pointer, size: Size)
      requires p.At? && cmdLeft <= size ==> Idle() && sgIndex < |sgs| && (write ==> NoNullEntry(sgs[..sgIndex + 1]))
      modifies this
      ensures p == Null ==>
                && log == old(log) + [AtaInterrupt]
                && unchanged(this`write, this`sgs, this`sgIndex, this`cmdAddr, this`cmdLeft)
                && unchanged(this`bufPtr, this`bufLeft, this`bufXfer)
                && unchanged(this`state, this`ataAddr, this`ataLeft, this`ataXfer, this`ataWrite, this`client)
                && unchanged(this`errors)
      ensures p.At? && old(cmdLeft) > size ==>
                && log == Sent(old(log), p.addr, old(cmdAddr), size)
                && cmdAddr == old(cmdAddr) + size && cmdLeft == old(cmdLeft) - size
                && unchanged(this`write, this`sgs, this`sgIndex, this`bufPtr, this`bufLeft, this`bufXfer, this`state)
                && unchanged(this`ataAddr, this`ataLeft, this`ataXfer, this`ataWrite, this`client, this`errors)
      ensures p.At? && old(cmdLeft) <= size ==>
                Started(Plan(write, old(sgs)[old(sgIndex) + 1..], old(bufPtr)),
                        Sent(old(log), p.addr, old(cmdAddr), size), old(bufPtr))
    {
      hide Plan, NoNullEntry;
      if p == Null {
        log := log + [AtaInterrupt];
        return;
      }
      if !write {
        log := log + [Send(p.addr, cmdAddr, size)];
      }
      if cmdLeft > size {
        cmdAddr := cmdAddr + size;
        cmdLeft := cmdLeft - size;
      } else {
        sgIndex := sgIndex + 1;
        StartSg();
      }
    }

    /** A log after the upper layer of a read has sent a chunk on. */
    function Sent(log: seq<Action>, src: nat, dest: nat, size: Size): seq<Action>
      reads this`write
    {
      if write then log else log + [Send(src, dest, size)]
    }

    // ---------- completions ----------

    /** _transfer_callback of pata_ps2_buffer.c. */
    method BufferCallback(p: Pointer, size: Size)
      requires state == Done && size <= bufLeft
      requires p == Null ==> Idle()
      requires p.At? ==>
                 && !write && sgIndex < |sgs|
                 && cmdLeft == bufLeft && size == Min(bufLeft, CHUNK)
                 && p.addr == bufPtr && bufPtr + size <= BUFFER
      modifies this
      ensures p == Null ==>
                && Idle() && log == old(log) + [AtaInterrupt]
                && unchanged(this`write, this`sgs, this`client, this`bufPtr, this`errors)
      ensures p.At? ==>
                Started(Reads(Left(Sg(old(cmdAddr), old(cmdLeft)), old(sgs)[old(sgIndex) + 1..]), old(bufPtr) + size),
                        old(log) + [Send(p.addr, old(cmdAddr), size)], old(bufPtr) + size)
    {
      hide Reads, Writes, NoNullEntry, Plan, Place, Driver.Began, Driver.Work;
      if p.At? { PlanOfRead(sgs[sgIndex + 1..], bufPtr + size); }
      bufPtr := bufPtr + size;
      bufLeft := bufLeft - size;
      if bufLeft > 0 {
        CmdCallback(p, size);
        ghost var ptr, before := bufPtr, log;
        BufferStart();
        Resumed(ptr, before);
      } else {
        CmdCallback(p, size);
      }
    }

    /** The buffer layer has started what is left of an entry. */
    lemma {:induction false} Resumed(ptr: nat, before: seq<Action>)
      requires Reading() && ptr <= BUFFER && bufPtr == Place(BUFFER, ptr, bufXfer)
      requires log == before + [Dma(bufPtr, bufXfer, true)]
      ensures Began(Reads([Sg(cmdAddr, cmdLeft)] + Beyond(), ptr), before, ptr)
    {
      FirstRead(Sg(cmdAddr, cmdLeft), Beyond(), ptr);
      ReadsFromPlace(Sg(cmdAddr, cmdLeft), Beyond(), ptr);
    }

    /** What the ata layer tells its client: where the data is. The data buffer is not at address 0. */
    function Pointed(addr: nat): Pointer
      reads this`ataWrite
    {
      if ataWrite && addr == 0 then Null else At(addr)
    }

    /** A log after the ata layer of a write has told its client about a chunk. */
    function Counted(log: seq<Action>, addr: nat): seq<Action>
    {
      if addr == 0 then log + [AtaInterrupt] else log
    }

    /** The call of the client of a write when more is left. */
    method Count(addr: nat, size: Size)
      requires write && ataWrite && sgIndex < |sgs| && size == CHUNK < cmdLeft && Agreed(addr, cmdLeft)
      requires addr != 0
      modifies this
      ensures unchanged(this`write, this`sgs, this`sgIndex, this`bufPtr, this`bufLeft,
              this`state, this`ataAddr, this`ataLeft)
      ensures unchanged(this`ataWrite, this`client, this`errors)
      ensures log == old(log) && Agreed(addr + size, old(cmdLeft) - size)
    {
      CmdCallback(Pointed(addr), size);
    }

    /** The ata layer has started what is left of a write. */
    lemma {:induction false} WriteResumed(before: seq<Action>)
      requires Writing() && log == before + [Dma(ataAddr, ataXfer, false)]
      ensures Began(Writes([Sg(ataAddr, ataLeft)] + Beyond()), before, bufPtr)
    {
      FirstWrite(Sg(ataAddr, ataLeft), Beyond());
    }

    /** The part of _transfer_callback of pata_ps2_ata.c for a transfer with more to do. Only writes have it: the
        buffer layer asks for no more than one request. */
    method Continue(addr: nat)
      requires Writing() && ataLeft > ataXfer && addr == ataAddr != 0
      modifies this
      ensures Started(Writes([Sg(addr + CHUNK, old(ataLeft) - CHUNK)] + old(Beyond())), old(log), old(bufPtr))
    {
      hide Writes, NoNullEntry, Reached, Driver.Began, Driver.Work, Driver.Beyond;
      ataAddr := ataAddr + ataXfer;
      ataLeft := ataLeft - ataXfer;
      state := Waiting;
      match client {
        case NoClient =>
        case CmdLayer => Count(addr, ataXfer);
        case BufferLayer => assert false;
      }
      ghost var before := log;
      AtaStart();
      WriteResumed(before);
    }

    lemma {:induction false} Ended(before: seq<Action>)
      requires Idle() && log == before + Ending(write, sgs)
      ensures Began([], before, bufPtr)
    {
    }

    /** The call of the client of a write when no more is left. */
    method CountLast(addr: nat, size: Size)
      requires Idle() && write && ataWrite && sgIndex < |sgs| && NoNullEntry(sgs[..sgIndex]) && Agreed(addr, size)
      modifies this
      ensures Started(Writes(old(Beyond())), Counted(old(log), addr), old(bufPtr))
    {
      ghost var stalled := sgs[sgIndex].addr == 0;
      LastChunk(sgs, sgIndex, bufPtr);
      hide Writes, Reached, Plan, NoNullEntry, Driver.Began;
      CmdCallback(Pointed(addr), size);
      if stalled { Ended(log); }
    }

    /** The part of it for a transfer that is done. */
    method Conclude(addr: nat)
      requires (Reading() || Writing()) && ataLeft == ataXfer && addr == ataAddr
      modifies this
      ensures if old(write) then Started(Writes(old(Beyond())), Counted(old(log), addr), old(bufPtr))
              else Started(Reads(Left(Sg(old(cmdAddr), old(cmdLeft)), old(Beyond())), old(bufPtr) + old(ataXfer)),
                           old(log) + [Send(addr, old(cmdAddr), old(ataXfer))], old(bufPtr) + old(ataXfer))
    {
      hide Reads, Writes, Plan, NoNullEntry, Driver.Began, Driver.Work, Driver.Agreed;
      ataAddr := ataAddr + ataXfer;
      ataLeft := ataLeft - ataXfer;
      state := Done;
      match client {
        case NoClient =>
        case CmdLayer => CountLast(addr, ataXfer);
        case BufferLayer => BufferCallback(Pointed(addr), ataXfer);
      }
    }

    /** The first chunk of the work left, and what comes after it, by the counts of the layers. */
    lemma {:induction false} NextWrite()
      requires Writing()
      ensures Work() != [] && Told(log, Work()[0], write) == Counted(log, ataAddr)
      ensures Work()[1..] == if ataLeft > ataXfer then Writes([Sg(ataAddr + CHUNK, ataLeft - CHUNK)] + Beyond())
                             else Writes(Beyond())
      ensures Work()[0] == Chunk(ataAddr, ataAddr, ataXfer)
      ensures ataLeft > ataXfer && Completes(Work()[0], write) ==> ataAddr != 0
    {
      hide Writes, Reached, NoNullEntry, Driver.Beyond, Driver.Agreed, Completes;
      FirstWrite(Sg(ataAddr, ataLeft), Beyond());
      WholeChunkCompletes(ataAddr);
    }

    lemma {:induction false} NextRead()
      requires Reading()
      ensures Work() != [] && Told(log, Work()[0], write) == log + [Send(ataAddr, cmdAddr, ataXfer)]
      ensures Work()[1..] == Reads(Left(Sg(cmdAddr, cmdLeft), Beyond()), bufPtr + ataXfer)
    {
      var todo := Work();
      FirstRead(Sg(cmdAddr, cmdLeft), Beyond(), bufPtr);
      assert todo != [] && todo[0] == Chunk(ataAddr, cmdAddr, ataXfer);
      hide Reads, Driver.Beyond, Driver.Work;
    }

    /** The DMA queue completes the request that is under way. */
    ghost predicate Completing()
      requires Reading() || Writing()
      reads this
    {
      Work() != [] && Completes(Work()[0], write)
    }

    /** _transfer_callback of pata_ps2_ata.c: the DMA request is complete. The chunk it was for is done, and the
        next one, if any, is asked for, once. The guards in all three layers do not fire. */
    method DmaDone()
      requires state == Transfer ==> (Reading() || Writing()) && Completing()
      modifies this
      ensures old(state) != Transfer ==> errors == old(errors) + 1 && unchanged(this`state, this`log)
      ensures old(state) == Transfer ==>
                Started(old(Work())[1..], Told(old(log), old(Work())[0], old(write)),
                        if old(write) then old(bufPtr) else old(bufPtr) + old(ataXfer))
    {
      hide Reads, Writes, NoNullEntry, Reached, Driver.Began, Driver.Work, Left, Told, Place, Completes;
      if state != Transfer {
        errors := errors + 1;
        return;
      }
      if write { NextWrite(); } else { NextRead(); }
      if ataLeft - ataXfer > 0 {
        Continue(ataAddr);
      } else {
        Conclude(ataAddr);
      }
    }

    /** _intr_ata0: the disk has finished a write. */
    method IntrAta0()
      requires state == Done ==> Idle()
      modifies this
      ensures unchanged(this`write, this`sgs, this`state, this`bufPtr)
      ensures old(state) != Done ==> errors == old(errors) + 1 && log == old(log)
      ensures old(state) == Done ==>
                && errors == old(errors) && Idle()
                && log == if client == NoClient then old(log) else old(log) + [AtaInterrupt]
    {
      if state != Done {
        errors := errors + 1;
        return;
      }
      match client {
        case NoClient =>
        case CmdLayer => CmdCallback(Null, 0);
        case BufferLayer => BufferCallback(Null, 0);
      }
    }

    /** _cmd_handle: a command from the EE. */
    method CmdHandle(write: bool, sgs: seq<Sg>)
      requires Idle()
      modifies this
      ensures this.write == write && this.sgs == sgs && errors == old(errors)
      ensures Began(Plan(write, sgs, old(bufPtr)), old(log), old(bufPtr))
    {
      this.write, this.sgs := write, sgs;
      sgIndex := 0;
      assert sgs[0..] == sgs;
      StartSg();
    }

    /** The state between two requests of a command. */
    lemma {:induction false} BeganMeans(todo: seq<Chunk>, before: seq<Action>, ptr: nat)
      requires Began(todo, before, ptr)
      ensures todo == [] ==> Idle() && log == before + Ending(write, sgs)
      ensures todo == [] || write ==> bufPtr == ptr
      ensures todo != [] ==>
                && state == Transfer && (Reading() || Writing()) && Work() == todo
                && log == before + [Request(todo[0], write)]
                && (write ==> todo[0] == Chunk(ataAddr, ataAddr, ataXfer))
                && (!write ==> todo[0].src == bufPtr && todo[0].size == ataXfer)
    {
      if todo != [] {
        if write { NextWrite(); } else { FirstRead(Sg(cmdAddr, cmdLeft), Beyond(), bufPtr); }
      }
    }

    /** A whole command, from the EE's request until no request is under way that completes: the log is that of its
        plan. Every chunk is asked of the DMA queue once and in order, every chunk of a read is then sent to its place
        in EE memory, and the completion comes last. A write with an entry at address 0 gets no completion; if that has
        a full block, its request is the last that the driver ever makes. No guard fires. */
    method Command(write: bool, sgs: seq<Sg>)
      requires Idle()
      modifies this
      ensures errors == old(errors)
      ensures log == Played(old(log), Plan(write, sgs, old(bufPtr)), write, Ending(write, sgs))
      ensures Idle() <==> !(write && Stuck(sgs))
      ensures bufPtr == PlanEnd(Plan(write, sgs, old(bufPtr)), write, old(bufPtr))
      ensures state != Done ==>
                && state == Transfer && ataWrite && ataAddr == 0 && ataXfer >= 128
                && log != [] && log[|log| - 1] == Dma(0, ataXfer, false)
    {
      hide Plan, NoNullEntry, Driver.Reading, Driver.Writing, Driver.Work, Driver.Began, Told, Completes, AllComplete;
      ghost var plan := Plan(write, sgs, bufPtr);
      ghost var todo, before := plan, log;
      ghost var ptr: nat := bufPtr;
      PlanCompletesIff(write, sgs, bufPtr);
      CmdHandle(write, sgs);
      BeganMeans(todo, before, ptr);
      while state == Transfer && (!ataWrite || ataAddr != 0 || ataXfer < 128)
        invariant this.write == write && this.sgs == sgs && errors == old(errors)
        invariant Began(todo, before, ptr) && PlanEnd(todo, write, ptr) == PlanEnd(plan, write, old(bufPtr))
        invariant Played(before, todo, write, Ending(write, sgs)) == Played(old(log), plan, write, Ending(write, sgs))
        invariant AllComplete(todo, write) <==> AllComplete(plan, write)
        decreases |todo|
      {
        BeganMeans(todo, before, ptr);
        RequestCompletesIff();
        AllCompleteCons(todo[0], todo[1..], write);
        assert todo == [todo[0]] + todo[1..];
        before := Told(log, todo[0], write);
        ptr := if write then ptr else bufPtr + ataXfer;
        DmaDone();
        todo := todo[1..];
      }
      BeganMeans(todo, before, ptr);
      if todo == [] {
        NothingIsComplete(write);
      } else {
        RequestCompletesIff();
        AllCompleteCons(todo[0], todo[1..], write);
        assert todo == [todo[0]] + todo[1..];
      }
    }

    /** Whether the request under way completes can be told from the ata layer's record. */
    lemma {:induction false} RequestCompletesIff()
      requires Reading() || Writing()
      ensures Work() != [] && (Completes(Work()[0], write) <==> !ataWrite || ataAddr != 0 || ataXfer < 128)
      ensures write == ataWrite
    {
      if write { NextWrite(); } else { NextRead(); }
      DmaQueue.BlocksExactBelow8M(ataXfer);
    }
  }

  lemma {:induction false} NothingIsComplete(write: bool)
    ensures AllComplete([], write)
  {
  }

  lemma {:induction false} PlanCompletesIff(write: bool, sgs: seq<Sg>, ptr: nat)
    requires ptr <= BUFFER
    ensures AllComplete(Plan(write, sgs, ptr), write) <==> !(write && Stuck(sgs))
  {
    if write { WritesCompleteIff(sgs); }
  }

  // ---------- what the log of a command means ----------

  /** A log in which every request completes ends with the command's last word; the plan itself never says Finished. */
  lemma {:induction false} LogEnds(log: seq<Action>, plan: seq<Chunk>, write: bool, last: seq<Action>)
    ensures log <= Played(log, plan, write, last)
    ensures AllComplete(plan, write) ==> |Played(log, plan, write, last)| >= |log| + |last|
    ensures AllComplete(plan, write) ==>
              Played(log, plan, write, last)[|Played(log, plan, write, last)| - |last|..] == last
    ensures Finished !in last || !AllComplete(plan, write) ==> Finished !in Played(log, plan, write, last)[|log|..]
    decreases |plan|
  {
    var all := Played(log, plan, write, last);
    if plan != [] {
      var asked := log + [Request(plan[0], write)];
      AllCompleteCons(plan[0], plan[1..], write);
      assert plan == [plan[0]] + plan[1..];
      hide AllComplete;
      if Completes(plan[0], write) {
        var told := Told(asked, plan[0], write);
        LogEnds(told, plan[1..], write, last);
        assert all[|log|..] == all[|log|..|told|] + all[|told|..];
        assert all[..|told|] == told;
        assert all[|log|..|told|] == told[|log|..];
        assert Finished !in told[|log|..];
      }
    }
  }

  /** The EE is told of a command's completion exactly if it is not a write with an entry at address 0. */
  lemma {:induction false} FinishedIff(write: bool, sgs: seq<Sg>, ptr: nat, before: seq<Action>)
    requires ptr <= BUFFER
    ensures var after := Played(before, Plan(write, sgs, ptr), write, Ending(write, sgs));
            before <= after && (Finished in after[|before|..] <==> !write || NoNullEntry(sgs))
  {
    hide Plan;
    var plan := Plan(write, sgs, ptr);
    var after := Played(before, plan, write, Ending(write, sgs));
    PlanCompletesIff(write, sgs, ptr);
    LogEnds(before, plan, write, Ending(write, sgs));
    NoNullIsNotStuck(sgs);
    if !write || NoNullEntry(sgs) {
      assert after[|after| - 1..] == [Finished];
      assert after[|before|..][|after| - 1 - |before|] == after[|after| - 1] == Finished;
    }
  }

  /** The completion is told exactly once, as the last thing of all, or not at all. */
  lemma {:induction false} FinishedOnce(write: bool, sgs: seq<Sg>, ptr: nat, before: seq<Action>)
    requires ptr <= BUFFER
    ensures var after := Played(before, Plan(write, sgs, ptr), write, Ending(write, sgs));
            && before <= after
            && var added := after[|before|..];
               if !write || forall i | 0 <= i < |sgs| :: sgs[i].addr != 0 then
                 multiset(added)[Finished] == 1 && added[|added| - 1] == Finished
               else
                 multiset(added)[Finished] == 0
  {
    hide Plan;
    var plan, last := Plan(write, sgs, ptr), Ending(write, sgs);
    var after := Played(before, plan, write, last);
    PlanCompletesIff(write, sgs, ptr);
    NoNullIsNotStuck(sgs);
    LogEnds(before, plan, write, last);
    FinishedCount(before, plan, write, last);
    assert after == before + after[|before|..];
    if !write || NoNullEntry(sgs) { assert after[|after| - 1..] == [Finished]; }
  }

  lemma {:induction false} FinishedCount(log: seq<Action>, plan: seq<Chunk>, write: bool, last: seq<Action>)
    ensures multiset(Played(log, plan, write, last))[Finished]
            == multiset(log)[Finished] + if AllComplete(plan, write) then multiset(last)[Finished] else 0
    decreases |plan|
  {
    if plan != [] {
      AllCompleteCons(plan[0], plan[1..], write);
      assert plan == [plan[0]] + plan[1..];
      hide AllComplete;
      var asked := log + [Request(plan[0], write)];
      if Completes(plan[0], write) { FinishedCount(Told(asked, plan[0], write), plan[1..], write, last); }
    }
  }

  /** A read command asks for each chunk of its plan, into the data buffer, and sends it to its place as soon as it is
      there; it does nothing else before it tells of its completion. */
  lemma {:induction false} ReadLog(sgs: seq<Sg>, ptr: nat, before: seq<Action>, k: nat)
    requires ptr <= BUFFER && k <= |Reads(sgs, ptr)|
    ensures var cs, n := Reads(sgs, ptr), |before|;
            var after := Played(before, Plan(false, sgs, ptr), false, Ending(false, sgs));
            && |after| == n + 2 * |cs| + 1 && before <= after && after[n + 2 * |cs|] == Finished
            && (k < |cs| ==>
                  && after[n + 2 * k] == Dma(cs[k].src, cs[k].size, true)
                  && after[n + 2 * k + 1] == Send(cs[k].src, cs[k].dest, cs[k].size))
  {
    PlanOfRead(sgs, ptr);
    hide Plan, Reads, Completes;
    ReadPlayed(before, Reads(sgs, ptr), [Finished], k);
  }

  lemma {:induction false} ReadPlayed(log: seq<Action>, plan: seq<Chunk>, last: seq<Action>, k: nat)
    requires k <= |plan|
    ensures var all, n := Played(log, plan, false, last), |log| + 2 * |plan|;
            && |all| == n + |last| && log <= all && all[n..] == last
            && (k < |plan| ==>
                  && all[|log| + 2 * k] == Dma(plan[k].src, plan[k].size, true)
                  && all[|log| + 2 * k + 1] == Send(plan[k].src, plan[k].dest, plan[k].size))
    decreases |plan|
  {
    if plan != [] {
      var told := log + [Request(plan[0], false)] + [Send(plan[0].src, plan[0].dest, plan[0].size)];
      assert told[|log|] == Dma(plan[0].src, plan[0].size, true);
      ReadPlayed(told, plan[1..], last, if k == 0 then 0 else k - 1);
      assert Played(log, plan, false, last) == Played(told, plan[1..], false, last);
    }
  }

  function AskedFor(cs: seq<Chunk>): seq<Action>
  {
    seq(|cs|, i requires 0 <= i < |cs| => Dma(cs[i].src, cs[i].size, false))
  }

  /** A write command asks for the chunks of its plan, out of their places, up to the first at address 0, and does
      nothing else before it tells of its completion. The chunk at address 0, if there is one, is the last that it asks
      for; it is told as the disk's interrupt if it has no full block, and is never done otherwise. */
  lemma {:induction false} WriteLog(sgs: seq<Sg>, ptr: nat, before: seq<Action>, k: nat)
    requires ptr <= BUFFER
    requires FirstNull(Writes(Reached(sgs)), k)
    ensures var cs := Writes(Reached(sgs));
            Played(before, Plan(true, sgs, ptr), true, Ending(true, sgs))
            == before + AskedFor(cs[..k])
              + if k == |cs| then [Finished]
                else [Dma(0, cs[k].size, false)] + if cs[k].size < 128 then [AtaInterrupt] else []
  {
    hide Writes, Completes, AskedFor;
    var cs, last := Writes(Reached(sgs)), Ending(true, sgs);
    ReachedIsAllIff(sgs);
    NullsReached(sgs);
    NullChunksIff(Reached(sgs));
    WritePlayed(Reached(sgs), before, last, k);
    assert [AtaInterrupt] + [] == [AtaInterrupt];
  }

  /** Only the last of the entries that are reached can be at address 0, and it is if there is one. */
  lemma {:induction false} NullsReached(sgs: seq<Sg>)
    ensures var r := Reached(sgs);
            (forall i | 0 <= i < |r| - 1 :: r[i].addr != 0) && (NoNullEntry(r) <==> NoNullEntry(sgs))
  {
    if sgs != [] {
      NullsReached(sgs[1..]);
      var r := Reached(sgs);
      assert sgs == [sgs[0]] + sgs[1..];
      if sgs[0].addr == 0 {
        assert r[0] == sgs[0];
      } else {
        assert r[1..] == Reached(sgs[1..]);
        assert NoNullEntry(r) <==> NoNullEntry(r[1..]) by { assert r == [r[0]] + r[1..]; }
      }
    }
  }

  lemma {:induction false} NullChunksIff(todo: seq<Sg>)
    ensures (forall i | 0 <= i < |Writes(todo)| :: Writes(todo)[i].src != 0) <==> NoNullEntry(todo)
    decreases |todo|, if todo == [] then 0 else todo[0].size
  {
    if todo != [] {
      var cs, rest := Writes(todo), Rest(todo);
      NullChunksIff(rest);
      assert cs[1..] == Writes(rest);
      assert cs == [cs[0]] + cs[1..] && todo == [todo[0]] + todo[1..];
      if todo[0].addr != 0 {
        assert NoNullEntry(rest) <==> NoNullEntry(todo[1..]) by {
          if rest != todo[1..] { assert rest == [rest[0]] + todo[1..] && rest[0].addr != 0; }
        }
      }
    }
  }

  /** Chunk k is the first at address 0, or there is none and k is their number. */
  predicate FirstNull(cs: seq<Chunk>, k: nat)
  {
    k <= |cs| && (forall i | 0 <= i < k :: cs[i].src != 0) && (k < |cs| ==> cs[k].src == 0)
  }

  lemma {:induction false} FirstNullBound(cs: seq<Chunk>, k: nat)
    requires FirstNull(cs, k)
    ensures k <= |cs|
  {
  }

  lemma {:induction false} FirstNullRest(c: Chunk, cs: seq<Chunk>, k: nat)
    requires FirstNull([c] + cs, k)
    ensures if c.src == 0 then k == 0 else k > 0 && FirstNull(cs, k - 1) && ([c] + cs)[..k] == [c] + cs[..k - 1]
    ensures c.src != 0 && k <= |cs| ==> ([c] + cs)[k] == cs[k - 1]
  {
    assert ([c] + cs)[0] == c;
    if c.src != 0 { assert forall i | 0 <= i < k - 1 :: cs[i] == ([c] + cs)[i + 1]; }
  }

  lemma {:induction false} WritesStep(todo: seq<Sg>)
    requires todo != []
    ensures var n := Min(todo[0].size, CHUNK);
            Writes(todo) == [Chunk(todo[0].addr, todo[0].addr, n)] + Writes(Rest(todo))
  {
  }

  lemma {:induction false} WritePlayed(todo: seq<Sg>, log: seq<Action>, last: seq<Action>, k: nat)
    requires (forall i | 0 <= i < |todo| - 1 :: todo[i].addr != 0) && FirstNull(Writes(todo), k)
    ensures var cs := Writes(todo);
            Played(log, cs, true, last)
            == log + AskedFor(cs[..k])
              + if k == |cs| then last
                else [Dma(0, cs[k].size, false)] + if cs[k].size < 128 then [AtaInterrupt] + last else []
    decreases |todo|, if todo == [] then 0 else todo[0].size
  {
    hide AskedFor, Completes, FirstNull, Writes;
    AskedForNothing();
    FirstNullBound(Writes(todo), k);
    if todo == [] {
      NothingToWrite();
      assert Writes(todo)[..0] == [];
    } else {
      WritesStep(todo);
      var rest, c := Rest(todo), Writes(todo)[0];
      CompletesMeans(c);
      FirstNullRest(c, Writes(rest), k);
      if c.src == 0 {
        assert Writes(todo)[..0] == [] && (c.size < 128 ==> rest == []);
        NothingToWrite();
      } else {
        WritePlayed(rest, log + [Dma(c.src, c.size, false)], last, k - 1);
        AskedForFirst(log, c, Writes(rest)[..k - 1]);
      }
    }
  }

  lemma {:induction false} CompletesMeans(c: Chunk)
    ensures Completes(c, true) <==> c.dest != 0 || c.size < 128
  {
    DmaQueue.BlocksExactBelow8M(c.size);
  }

  lemma {:induction false} AskedForNothing()
    ensures AskedFor([]) == []
  {
  }

  lemma {:induction false} AskedForFirst(log: seq<Action>, c: Chunk, cs: seq<Chunk>)
    ensures log + AskedFor([c] + cs) == log + [Dma(c.src, c.size, false)] + AskedFor(cs)
  {
    assert AskedFor([c] + cs) == [Dma(c.src, c.size, false)] + AskedFor(cs);
  }

  lemma {:induction false} NoNullIsNotStuck(sgs: seq<Sg>)
    ensures NoNullEntry(sgs) ==> !Stuck(sgs)
  {
    if sgs != [] { NoNullIsNotStuck(sgs[1..]); }
  }

  lemma {:induction false} PlayedExtends(log: seq<Action>, more: seq<Action>, plan: seq<Chunk>, write: bool,
                                         last: seq<Action>)
    ensures Played(log + more, plan, write, last) == log + Played(more, plan, write, last)
    decreases |plan|
  {
    if plan == [] {
      assert (log + more) + last == log + (more + last);
    } else if !Completes(plan[0], write) {
      assert (log + more) + [Request(plan[0], write)] == log + (more + [Request(plan[0], write)]);
    } else {
      var c := plan[0];
      var next := Told(more + [Request(c, write)], c, write);
      assert Told((log + more) + [Request(c, write)], c, write) == log + next;
      PlayedExtends(log, next, plan[1..], write, last);
    }
  }

  /** The transfers that a log asks for: each DMA request and the send that follows it. */
  function Transfers(log: seq<Action>): seq<Chunk>
  {
    if |log| >= 2 && log[0].Dma? && log[1].Send? then
      [Chunk(log[0].addr, log[1].dest, log[0].size)] + Transfers(log[2..])
    else
      []
  }

  lemma {:induction false} LogOfRead(plan: seq<Chunk>)
    ensures Transfers(Played([], plan, false, [Finished])) == plan
    decreases |plan|
  {
    if plan != [] {
      var c := plan[0];
      var first := [Request(c, false), Send(c.src, c.dest, c.size)];
      var rest := Played([], plan[1..], false, [Finished]);
      assert Told([] + [Request(c, false)], c, false) == first + [];
      PlayedExtends(first, [], plan[1..], false, [Finished]);
      assert (first + rest)[2..] == rest;
      LogOfRead(plan[1..]);
    }
  }

  /** What a read command asks for, by its log, is a plain copy of the disk's bytes to the entries of its list, in
      every run of the engine and the SIF, exactly if every entry has whole blocks. */
  lemma {:induction false} CommandIsPlainCopyIff(sgs: seq<Sg>, ptr: nat, before: seq<Action>)
    requires ptr <= BUFFER
    ensures var after := Played(before, Plan(false, sgs, ptr), false, Ending(false, sgs));
            && before <= after
            && (PataCopy.CopiesPlainly(Transfers(after[|before|..]), SgBytes(sgs)) <==> Sectors(sgs))
  {
    hide PataCopy.CopiesPlainly;
    var plan := Plan(false, sgs, ptr);
    var log := Played([], plan, false, [Finished]);
    assert before + [] == before;
    PlayedExtends(before, [], plan, false, [Finished]);
    assert (before + log)[|before|..] == log;
    LogOfRead(plan);
    PataCopy.PlainCopyIffSectors(sgs, ptr);
  }

  // ---------- what the ring makes of a request ----------

  /** A write's request on the idle ring of the DMA queue, and the interrupt after it: its done callback is made
      exactly if it completes. If it does not, the ring is jammed, for good (Dev9Dma.Driver.StayJammed). */
  method AskRing(dma: Dev9Dma.Driver<Chunk>, c: Chunk)
    requires dma.Valid() && dma.live == [] && c.dest < 0x1_0000_0000
    modifies dma, dma.tqueue
    ensures var r := DmaQueue.Request(c, c.dest, c.size, []);
            if Completes(c, true) then
              dma.Valid() && dma.live == [] && |dma.callbacks| > 0
                && dma.callbacks[|dma.callbacks| - 1] == Dev9Dma.Done(r)
            else
              dma.Jammed() && dma.live == [r] && dma.callbacks == old(dma.callbacks) + [Dev9Dma.PreDma(r)]
  {
    var r := DmaQueue.Request(c, c.dest, c.size, []);
    AloneOnRing(r);
    var rv;
    if c.dest == 0 {
      rv := dma.NullTransfer(r);
    } else {
      rv := dma.Transfer(r);
    }
    dma.InterruptHandler();
  }

  lemma {:induction false} AloneOnRing(r: DmaQueue.Request<Chunk>)
    requires r.followUps == []
    ensures DmaQueue.Blocks(r.size) == 0 ==>
              var o := DmaQueue.Submit([], r);
                o == DmaQueue.Outcome([r], [], [r]) && Dev9Dma.Trace(o) == [Dev9Dma.PostDma(r), Dev9Dma.Done(r)]
    ensures DmaQueue.Blocks(r.size) > 0 ==>
              && DmaQueue.Submit([], r) == DmaQueue.Outcome([], [r], [r])
              && var o := DmaQueue.Interrupt([r]);
                 o == DmaQueue.Outcome([r], [], []) && Dev9Dma.Trace(o) == [Dev9Dma.PostDma(r), Dev9Dma.Done(r)]
  {
    if DmaQueue.Blocks(r.size) == 0 {
      Dev9Dma.OneCompletion(r);
    } else {
      assert ([r] + [])[1..] == [] && [r][1..] == [];
      assert DmaQueue.Settle<Chunk>([]) == DmaQueue.Outcome([], [], []);
      assert Dev9Dma.Completions<Chunk>([]) == [];
    }
  }
}
