/** The tty of eedebug.c: a ring of 1024 characters that a writer fills and that is drained in packets to the EE,
    by a thread or, when the ring is full, by the writer itself. */
module Tty {
  import opened Sequences

  const BUFFER_SIZE := 1024

  /** The size of a pointer, to which eePrintBuffer limits its packets: it asks for the size of text - 1, not for the
      size of text less one. */
  const PACKET := 4

  /** What is sent to the EE: drained characters, or the notice that the ring is full. */
  datatype Message = Packet(text: seq<char>) | BufferFull

  /** The characters that the packets carry, in order. */
  function Text(ms: seq<Message>): seq<char>
  {
    if ms == [] then [] else Text(ms[..|ms| - 1]) + match ms[|ms| - 1] case Packet(t) => t case BufferFull => []
  }

  lemma {:induction false} TextAppend(ms: seq<Message>, m: Message)
    ensures Text(ms + [m]) == Text(ms) + match m case Packet(t) => t case BufferFull => []
  {
    assert (ms + [m])[..|ms|] == ms;
  }

  /** How often the ring was found full. */
  function Notices(ms: seq<Message>): nat
  {
    if ms == [] then 0 else Notices(ms[..|ms| - 1]) + if ms[|ms| - 1] == BufferFull then 1 else 0
  }

  lemma {:induction false} NoticesAppend(ms: seq<Message>, m: Message)
    ensures Notices(ms + [m]) == Notices(ms) + if m == BufferFull then 1 else 0
  {
    assert (ms + [m])[..|ms|] == ms;
  }

  /** How often the ring of 1024 characters, one of which is always left free, is full before n characters are in it. */
  function Overflows(n: nat): nat
  {
    if n == 0 then 0 else (n - 1) / 1023
  }

  predicate ShortPackets(ms: seq<Message>)
  {
    forall i | 0 <= i < |ms| && ms[i].Packet? :: 1 <= |ms[i].text| <= PACKET
  }

  class Ring {
    const buffer: array<char>
    var readPos: nat
    var writePos: nat
    var sent: seq<Message>
    ghost var written: seq<char>

    ghost predicate Shaped()
      reads this`readPos, this`writePos
    {
      buffer.Length == BUFFER_SIZE && readPos < BUFFER_SIZE && writePos < BUFFER_SIZE
    }

    /** How many characters are waiting. */
    ghost function Count(): nat
      requires Shaped()
      reads this`readPos, this`writePos
    {
      if readPos <= writePos then writePos - readPos else writePos - readPos + BUFFER_SIZE
    }

    /** The characters that are waiting, in order. */
    ghost function Waiting(): (s: seq<char>)
      requires Shaped()
      reads this`readPos, this`writePos, buffer
    {
      if readPos <= writePos then buffer[readPos..writePos] else buffer[readPos..] + buffer[..writePos]
    }

    /** Nothing is lost, repeated or reordered: what was sent and what is waiting make up what was written. */
    ghost predicate Valid()
      reads this, buffer
    {
      && Shaped()
      && Text(sent) + Waiting() == written
      && ShortPackets(sent)
    }

    constructor ()
      ensures Valid() && written == [] && sent == [] && fresh(buffer)
    {
      buffer := new char[BUFFER_SIZE];
      readPos, writePos, sent, written := 0, 0, [], [];
    }

    /** Takes the next character. */
    method Take() returns (c: char)
      requires Shaped() && readPos != writePos
      modifies this`readPos
      ensures Shaped() && Count() == old(Count()) - 1
      ensures old(Waiting()) == [c] + Waiting()
    {
      c := buffer[readPos];
      readPos := (readPos + 1) % BUFFER_SIZE;
    }

    /** The part of eePrintBuffer that runs under the semaphore. */
    method TakePacket() returns (text: seq<char>)
      requires Shaped() && readPos != writePos
      modifies this`readPos
      ensures Shaped() && Count() == old(Count()) - |text|
      ensures 1 <= |text| <= PACKET && (|text| < PACKET ==> readPos == writePos)
      ensures old(Waiting()) == text + Waiting()
    {
      hide Ring.Waiting;
      text := [];
      while readPos != writePos
        invariant Shaped() && Count() == old(Count()) - |text|
        invariant |text| < PACKET && old(Waiting()) == text + Waiting()
        decreases Count()
      {
        var c := Take();
        Regroup(text, [c], Waiting());
        text := text + [c];
        if |text| >= PACKET {
          break;
        }
      }
    }

    /** One round of eePrintBuffer: the next packet, if anything is waiting. */
    method SendPacket()
      requires Valid()
      modifies this
      ensures Valid() && written == old(written) && writePos == old(writePos) && old(sent) <= sent
      ensures old(readPos) != writePos ==>
                && |sent| == |old(sent)| + 1 && sent[|old(sent)|].Packet?
                && |sent[|old(sent)|].text| == (if old(Count()) < 4 then old(Count()) else 4)
                && Count() == old(Count()) - |sent[|old(sent)|].text|
      ensures old(readPos) == writePos ==> unchanged(this)
      ensures Notices(sent) == Notices(old(sent))
    {
      hide Ring.Waiting, Text, Notices;
      if readPos != writePos {
        var text := TakePacket();
        TextAppend(sent, Packet(text));
        NoticesAppend(sent, Packet(text));
        Regroup(Text(sent), text, Waiting());
        sent := sent + [Packet(text)];
      }
    }

    /** eePrintBuffer: sends everything that is waiting. */
    method Drain()
      requires Valid()
      modifies this
      ensures Valid() && readPos == writePos && Text(sent) == written
      ensures written == old(written) && writePos == old(writePos) && old(sent) <= sent
      ensures |sent| == |old(sent)| + (old(Count()) + 3) / 4 && Notices(sent) == Notices(old(sent))
    {
      hide Text, Notices;
      while readPos != writePos
        invariant Valid() && written == old(written) && writePos == old(writePos) && old(sent) <= sent
        invariant |sent| + (Count() + 3) / 4 == |old(sent)| + (old(Count()) + 3) / 4
        invariant Notices(sent) == Notices(old(sent))
        decreases Count()
      {
        SendPacket();
      }
      assert Waiting() == [];
    }

    method Put(c: char)
      requires Valid() && (writePos + 1) % BUFFER_SIZE != readPos
      modifies this`writePos, this`written, buffer
      ensures Valid() && written == old(written) + [c] && Count() == old(Count()) + 1
    {
      hide Text;
      ghost var waiting := Waiting();
      buffer[writePos] := c;
      writePos := (writePos + 1) % BUFFER_SIZE;
      assert Waiting() == waiting + [c];
      Regroup(Text(sent), waiting, [c]);
      written := written + [c];
    }

    /** The part of ttyWrite for a full ring: it says so, and sends what is waiting. */
    method Overflow()
      requires Valid()
      modifies this
      ensures Valid() && written == old(written) && readPos == writePos
      ensures old(sent) + [BufferFull] <= sent && Notices(sent) == Notices(old(sent)) + 1
    {
      hide Text, Notices, Ring.Waiting;
      TextAppend(sent, BufferFull);
      NoticesAppend(sent, BufferFull);
      assert Text(sent) + [] == Text(sent);
      sent := sent + [BufferFull];
      Drain();
    }

    /** One round of ttyWrite. */
    method WriteOne(c: char)
      requires Valid()
      modifies this, buffer
      ensures Valid() && written == old(written) + [c] && old(sent) <= sent
      ensures if old(Count()) < 1023 then sent == old(sent) && Count() == old(Count()) + 1
              else
                && Count() == 1 && Notices(sent) == Notices(old(sent)) + 1
                && |sent| > |old(sent)| && sent[|old(sent)|] == BufferFull
    {
      hide Text, Notices, Ring.Waiting;
      if (writePos + 1) % BUFFER_SIZE == readPos {
        Overflow();
      }
      Put(c);
    }

    /** ttyWrite. When the ring is full it says so, and sends what is waiting before it goes on; otherwise it sends
        nothing. */
    method Write(buf: seq<char>) returns (n: nat)
      requires Valid()
      modifies this, buffer
      ensures Valid() && n == |buf| && written == old(written) + buf && old(sent) <= sent
      ensures Notices(sent) == Notices(old(sent)) + Overflows(old(Count()) + |buf|)
      ensures Count() == old(Count()) + |buf| - 1023 * Overflows(old(Count()) + |buf|)
      ensures if Overflows(old(Count()) + |buf|) == 0 then sent == old(sent)
              else |sent| > |old(sent)| && sent[|old(sent)|] == BufferFull
    {
      hide Ring.Waiting, Text, Notices;
      for i := 0 to |buf|
        invariant Valid() && written == old(written) + buf[..i] && old(sent) <= sent
        invariant Notices(sent) == Notices(old(sent)) + Overflows(old(Count()) + i)
        invariant Count() == old(Count()) + i - 1023 * Overflows(old(Count()) + i)
        invariant if Overflows(old(Count()) + i) == 0 then sent == old(sent)
                  else |sent| > |old(sent)| && sent[|old(sent)|] == BufferFull
      {
        WriteOne(buf[i]);
        Regroup(old(written), buf[..i], [buf[i]]);
        assert buf[..i + 1] == buf[..i] + [buf[i]];
      }
      assert buf[..|buf|] == buf;
      return |buf|;
    }
  }

  /** What happens to the tty: a write, or the thread sending one packet. */
  datatype Use = Written(text: seq<char>) | PacketSent

  /** Any sequence of writes and packets sent by the thread: in the end, once the ring is drained, the packets carry
      exactly what was written. */
  method Session(uses: seq<Use>) returns (sent: seq<Message>)
    ensures Text(sent) == AllWritten(uses) && ShortPackets(sent)
  {
    hide Text, Ring.Waiting, ShortPackets;
    var ring := new Ring();
    for i := 0 to |uses|
      invariant fresh(ring) && fresh(ring.buffer) && ring.Valid() && ring.written == AllWritten(uses[..i])
    {
      assert uses[..i + 1][..i] == uses[..i];
      match uses[i]
      case Written(text) => var n := ring.Write(text);
      case PacketSent => ring.SendPacket();
    }
    ring.Drain();
    assert uses[..|uses|] == uses;
    return ring.sent;
  }

  function AllWritten(uses: seq<Use>): seq<char>
  {
    if uses == [] then []
    else AllWritten(uses[..|uses| - 1]) + match uses[|uses| - 1] case Written(text) => text case PacketSent => []
  }
}
