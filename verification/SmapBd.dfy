/** The buffer descriptors of the Ethernet chip (smap.h): a ring of 64 for each direction. */
module SmapBd {

  const BDS := 64

  type U16 = x: int | 0 <= x < 0x1_0000
  type Index = x: int | 0 <= x < BDS

  /** Bit 15 of the status says whose descriptor it is: ready to be sent, or empty and to be filled, it is the chip's.
      The low ten bits report errors. */
  datatype Bd = Bd(ctrl: U16, length: U16, pointer: U16)
  {
    predicate Ready()
    {
      ctrl >= 0x8000
    }

    predicate Empty()
    {
      ctrl >= 0x8000
    }

    predicate Error()
    {
      ctrl % 0x400 != 0
    }
  }

  /** Bit n of a status. */
  predicate Bit(ctrl: nat, n: nat)
  {
    if n == 0 then ctrl % 2 == 1 else Bit(ctrl / 2, n - 1)
  }

  /** One of its low n bits is set. */
  predicate SomeBit(ctrl: nat, n: nat)
  {
    n > 0 && (ctrl % 2 == 1 || SomeBit(ctrl / 2, n - 1))
  }

  /** The bits that smap.h names. */
  lemma {:induction false} FlagsAreBits(bd: Bd)
    ensures bd.Ready() <==> Bit(bd.ctrl, 15)
    ensures bd.Empty() <==> Bit(bd.ctrl, 15)
    ensures bd.Error() <==> SomeBit(bd.ctrl, 10)
  {
    BitIsQuotient(bd.ctrl, 15);
    SomeBitIsRest(bd.ctrl, 10);
    assert Power(5) == 32 && Power(10) == 32 * Power(5) && Power(15) == 32 * Power(10);
  }

  function Power(n: nat): (p: nat)
    ensures p > 0
  {
    if n == 0 then 1 else 2 * Power(n - 1)
  }

  lemma {:induction false} BitIsQuotient(c: nat, n: nat)
    ensures Bit(c, n) <==> c / Power(n) % 2 == 1
    decreases n
  {
    if n > 0 {
      BitIsQuotient(c / 2, n - 1);
      Halves(c, Power(n - 1));
    }
  }

  lemma {:induction false} SomeBitIsRest(c: nat, n: nat)
    ensures SomeBit(c, n) <==> c % Power(n) != 0
    decreases n
  {
    if n > 0 {
      SomeBitIsRest(c / 2, n - 1);
      Halves(c, Power(n - 1));
    }
  }

  lemma {:induction false} Halves(c: nat, m: nat)
    requires m > 0
    ensures c / (2 * m) == c / 2 / m && c % (2 * m) == 2 * (c / 2 % m) + c % 2
  {
    var q, r := c / 2 / m, c / 2 % m;
    assert c == 2 * m * q + (2 * r + c % 2);
    Division(c, 2 * m, q, 2 * r + c % 2);
  }

  lemma {:induction false} Division(c: nat, d: nat, q: nat, r: nat)
    requires c == d * q + r && r < d
    ensures c / d == q && c % d == r
  {
    var e := c / d - q;
    assert d * e == r - c % d;
    Product(d, e);
  }

  lemma {:induction false} Product(d: nat, e: int)
    ensures e >= 1 ==> d * e >= d
    ensures e <= -1 ==> d * e + d <= 0
  {
  }

  type Bds = s: seq<Bd> | |s| == BDS witness seq(BDS, _ => Bd(0, 0, 0))

  /** SMAP_BD_NEXT. */
  function Next(i: Index): Index
  {
    if i < BDS - 1 then i + 1 else 0
  }

  /** A length in whole words. */
  function Aligned(len: nat): nat
  {
    (len + 3) / 4 * 4
  }
}
