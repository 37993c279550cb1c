/** The bit-banged EEPROM reader of smap_eeprom.c, composed with the serial EEPROM on the other side of the port:
    64 words of 16 bits, sampled on the rising clock while selected, everything most significant bit first. */
module Eeprom {

  const WORDS := 64
  const PP_DIN: bv8 := 0x20
  const PP_SCLK: bv8 := 0x40
  const PP_CSEL: bv8 := 0x80
  const PP_OP_READ: bv8 := 2

  type U16 = x: int | 0 <= x < 0x1_0000
  type Cells = s: seq<U16> | |s| == WORDS witness seq(WORDS, _ => 0)
  type Address = x: int | 0 <= x < WORDS

  /** The number that the first k of n bits of x make. */
  function Top(x: nat, n: nat, k: nat): nat
    requires k <= n
    decreases n - k
  {
    if k == n then x else Top(x, n, k + 1) / 2
  }

  /** The low six bits of a byte. */
  function AddressOf(x: bv8): Address
  {
    (x & 0x3F) as Address
  }

  // ---------- the device ----------

  /** Waiting for a start bit, taking the n bits of a command so far, sending bit k of the word at an address, or
      busy with something else. */
  datatype Phase = Standby | Command(n: nat, value: bv8) | Sending(addr: Address, k: nat) | Deaf

  datatype Device = Device(cells: Cells, phase: Phase, clock: bool, q: bool)
  {
    /** A rising clock with the given data bit. */
    function Shift(d: bool): Device
    {
      match phase
      case Standby => if d then this.(phase := Command(0, 0)) else this
      case Command(n, value) =>
        var v := (value << 1) | if d then 1 else 0;
        if n + 1 < 8 then this.(phase := Command(n + 1, v))
        else if v >> 6 == PP_OP_READ then this.(phase := Sending(AddressOf(v), 0), q := false)
        else this.(phase := Deaf)
      case Sending(addr, k) =>
        if k < 15 then this.(phase := Sending(addr, k + 1), q := Top(cells[addr], 16, k + 1) % 2 == 1)
        else this.(phase := Sending((addr + 1) % WORDS, 0), q := cells[addr] % 2 == 1)
      case Deaf => this
    }

    /** What the device makes of the port after each write. */
    function See(port: bv8): Device
    {
      var clk := port & PP_SCLK != 0;
      if port & PP_CSEL == 0 then this.(phase := Standby, clock := clk)
      else if clk && !clock then Shift(port & PP_DIN != 0).(clock := true)
      else this.(clock := clk)
    }
  }

  // ---------- the driver ----------

  class Reader {
    var ppwc: bv8 // the shadow of the port
    var dev: Device

    constructor (cells: Cells, phase: Phase)
      ensures dev.cells == cells
    {
      ppwc := 0;
      dev := Device(cells, phase, false, false);
    }

    ghost predicate Selected()
      reads this
    {
      ppwc & PP_CSEL != 0 && !dev.clock
    }

    method SetData(d: bool)
      modifies this`ppwc
      ensures ppwc & PP_DIN != 0 <==> d
      ensures ppwc & PP_CSEL == old(ppwc) & PP_CSEL
    {
      ppwc := if d then ppwc | PP_DIN else ppwc & 0xDF;
    }

    method SetSelect(s: bool)
      modifies this`ppwc
      ensures ppwc & PP_CSEL != 0 <==> s
    {
      ppwc := if s then ppwc | PP_CSEL else ppwc & 0x7F;
    }

    method ClockOut(c: bool)
      modifies this
      ensures ppwc & PP_SCLK != 0 <==> c
      ensures ppwc & PP_CSEL == old(ppwc) & PP_CSEL && ppwc & PP_DIN == old(ppwc) & PP_DIN
      ensures dev == old(dev).See(ppwc)
    {
      ppwc := if c then ppwc | PP_SCLK else ppwc & 0xBF;
      dev := dev.See(ppwc);
    }

    /** EEPROMClockDataOut: the device takes one bit. */
    method DataOut(d: bool)
      requires Selected()
      modifies this
      ensures Selected() && dev == old(dev).Shift(d).(clock := false)
    {
      SetData(d);
      ClockOut(false);
      ClockOut(true);
      ClockOut(false);
    }

    /** EEPROMClockDataIn: the device gives one bit. */
    method DataIn() returns (bit: int)
      requires Selected()
      modifies this
      ensures Selected() && dev == old(dev).Shift(false).(clock := false)
      ensures bit == if dev.q then 1 else 0
    {
      SetData(false);
      ClockOut(false);
      ClockOut(true);
      bit := if dev.q then 1 else 0;
      ClockOut(false);
    }

    /** EEPROMStartOp. Whatever the device was doing, it has then taken a start bit and the two bits of op. */
    method StartOp(op: bv8)
      requires op < 4
      modifies this
      ensures Selected() && dev.cells == old(dev.cells) && dev.phase == Command(2, op)
    {
      SetSelect(false);
      SetData(false);
      ClockOut(false);
      SetSelect(true);
      SetData(false);
      ClockOut(false);
      DataOut(true);
      DataOut((op >> 1) & 1 != 0);
      DataOut(op & 1 != 0);
    }

    /** EEPROMPutAddr: six bits of the address, by shifting it up and looking at bit 5. */
    method PutAddr(u8Addr: bv8)
      requires Selected() && dev.phase == Command(2, PP_OP_READ)
      modifies this
      ensures Selected() && dev.cells == old(dev.cells) && dev.phase == Sending(AddressOf(u8Addr), 0)
    {
      hide AddressOf, Device.Shift, Prefix, Shifted;
      ghost var a := u8Addr & 0x3F;
      var addr := u8Addr & 0x3F;
      AddressBegins(a);
      for i := 0 to 6
        invariant Selected() && dev.cells == old(dev.cells)
        invariant dev.phase == if i < 6 then Command(2 + i, Prefix(a, i)) else Sending(AddressOf(Prefix(a, 6)), 0)
        invariant addr == Shifted(a, i)
      {
        addr := PutBit(addr, a, i);
      }
      SixBits(a);
      AddressOfCommand(u8Addr);
    }

    /** One round of the loop. */
    method PutBit(addr: bv8, ghost a: bv8, ghost i: nat) returns (next: bv8)
      requires Selected() && i < 6 && a < 0x40 && addr == Shifted(a, i) && dev.phase == Command(2 + i, Prefix(a, i))
      modifies this
      ensures Selected() && dev.cells == old(dev.cells) && next == Shifted(a, i + 1)
      ensures dev.phase == if i + 1 < 6 then Command(2 + (i + 1), Prefix(a, i + 1))
              else Sending(AddressOf(Prefix(a, 6)), 0)
    {
      hide AddressOf, Device.Shift;
      TakesBit(dev, addr & 0x20 != 0);
      if i == 5 { SixBits(a); }
      DataOut(addr & 0x20 != 0);
      next := addr << 1;
    }

    /** GetDataFromEEPROM: sixteen bits. */
    method GetData() returns (data: U16)
      requires Selected() && dev.phase.Sending? && dev.phase.k == 0
      modifies this
      ensures data == dev.cells[old(dev.phase.addr)]
      ensures Selected() && dev.cells == old(dev.cells) && dev.phase == Sending((old(dev.phase.addr) + 1) % WORDS, 0)
    {
      hide Top, Pow2;
      ghost var a, w := dev.phase.addr, dev.cells[dev.phase.addr];
      data := 0;
      TopNothing(w);
      TopAll(w);
      for i := 0 to 16
        invariant Selected() && dev.cells == old(dev.cells)
        invariant dev.phase == if i < 16 then Sending(a, i) else Sending((a + 1) % WORDS, 0)
        invariant data == Top(w, 16, i)
      {
        TopFits(w, i);
        data := 2 * data % 0x1_0000;
        var bit := DataIn();
        data := data + bit;
      }
    }

    /** ReadFromEEPROM: the words from the address on, going round at the end of the device. */
    method Read(u8Addr: bv8, data: array<U16>)
      modifies this, data
      ensures dev.cells == old(dev.cells) && dev.phase == Standby
      ensures forall i | 0 <= i < data.Length :: data[i] == dev.cells[(AddressOf(u8Addr) + i) % WORDS]
    {
      hide AddressOf;
      ghost var a := AddressOf(u8Addr);
      StartOp(PP_OP_READ);
      PutAddr(u8Addr);
      for i := 0 to data.Length
        invariant Selected() && dev.cells == old(dev.cells)
        invariant dev.phase == Sending((a + i) % WORDS, 0)
        invariant forall j | 0 <= j < i :: data[j] == dev.cells[(a + j) % WORDS]
      {
        NextWord(a, i);
        data[i] := GetData();
      }
      SetSelect(false);
      SetData(false);
      ClockOut(false);
    }
  }

  /** What one bit of a command does. */
  lemma {:induction false} TakesBit(dev: Device, d: bool)
    requires dev.phase.Command?
    ensures var n, v, next := dev.phase.n, (dev.phase.value << 1) | (if d then 1 else 0), dev.Shift(d);
            && next.cells == dev.cells
            && (n + 1 < 8 ==> next.phase == Command(n + 1, v))
            && (n + 1 == 8 && v >> 6 == PP_OP_READ ==> next.phase == Sending(AddressOf(v), 0))
  {
  }

  // ---------- bits ----------

  function Pow2(n: nat): nat
    ensures Pow2(n) > 0
  {
    if n == 0 then 1 else 2 * Pow2(n - 1)
  }

  lemma {:induction false} TopBound(x: nat, n: nat, k: nat)
    requires k <= n && x < Pow2(n)
    ensures Top(x, n, k) < Pow2(k)
    decreases n - k
  {
    if k < n { TopBound(x, n, k + 1); }
  }

  lemma {:induction false} Powers()
    ensures Pow2(2) == 4 && Pow2(4) == 16 && Pow2(6) == 64 && Pow2(8) == 256 && Pow2(12) == 4096 && Pow2(16) == 0x1_0000
  {
    assert Pow2(4) == 16;
    assert Pow2(8) == 256;
    assert Pow2(12) == 4096;
  }

  lemma {:induction false} TopNothing(w: U16)
    ensures Top(w, 16, 0) == 0
  {
    Powers();
    TopBound(w, 16, 0);
  }

  lemma {:induction false} TopFits(w: U16, k: nat)
    requires k < 16
    ensures 2 * Top(w, 16, k) < 0x1_0000
    ensures Top(w, 16, k + 1) == 2 * Top(w, 16, k) + Top(w, 16, k + 1) % 2
  {
    Powers();
    TopBound(w, 16, k);
    PowGrows(k, 15);
  }

  lemma {:induction false} PowGrows(j: nat, k: nat)
    requires j <= k
    ensures Pow2(j) <= Pow2(k)
    decreases k
  {
    if j < k { PowGrows(j, k - 1); }
  }

  lemma {:induction false} TopAll(w: U16)
    ensures Top(w, 16, 16) == w
  {
  }

  lemma {:induction false} NextWord(a: Address, i: nat)
    ensures ((a + i) % WORDS + 1) % WORDS == (a + (i + 1)) % WORDS
  {
  }

  /** An address shifted up k times. */
  function Shifted(a: bv8, k: nat): bv8
  {
    if k == 0 then a else Shifted(a, k - 1) << 1
  }

  /** The operation and the first k bits of an address, as bit 5 of the shifted address gives them. */
  function Prefix(a: bv8, k: nat): bv8
  {
    if k == 0 then PP_OP_READ else (Prefix(a, k - 1) << 1) | (if Shifted(a, k - 1) & 0x20 != 0 then 1 else 0)
  }

  lemma {:induction false} AddressBegins(a: bv8)
    ensures Prefix(a, 0) == PP_OP_READ && Shifted(a, 0) == a
  {
  }

  /** Six of them make up the command. */
  lemma {:induction false} SixBits(a: bv8)
    requires a < 0x40
    ensures Prefix(a, 6) == 0x80 | a && Prefix(a, 6) >> 6 == PP_OP_READ
  {
    assert Shifted(a, 0) == a;
    assert Shifted(a, 1) == a << 1;
    assert Shifted(a, 2) == a << 2;
    assert Shifted(a, 3) == a << 3;
    assert Shifted(a, 4) == a << 4;
    assert Shifted(a, 5) == a << 5;
    assert Prefix(a, 0) == PP_OP_READ;
    assert Prefix(a, 1) == 4 | (a >> 5);
    assert Prefix(a, 2) == 8 | (a >> 4);
    assert Prefix(a, 3) == 0x10 | (a >> 3);
    assert Prefix(a, 4) == 0x20 | (a >> 2);
    assert Prefix(a, 5) == 0x40 | (a >> 1);
  }

  lemma {:induction false} AddressOfCommand(a: bv8)
    ensures AddressOf(0x80 | (a & 0x3F)) == AddressOf(a)
  {
    assert (0x80 | (a & 0x3F)) & 0x3F == a & 0x3F;
  }
}
