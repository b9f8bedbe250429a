/** Bits of natural numbers: the shifts and logical operations of scripts/analyse_switches.py,
    each with what it does to a single bit. Bit 0 is the least significant. */
module Bits {

  const TWO_32: nat := 0x1_0000_0000

  type Word = w: nat | w < TWO_32

  function Bit(x: nat, k: nat): bool {
    if k == 0 then x % 2 == 1 else Bit(x / 2, k - 1)
  }

  function Or(x: nat, y: nat): nat {
    if x == 0 && y == 0 then 0
    else 2 * Or(x / 2, y / 2) + if x % 2 == 1 || y % 2 == 1 then 1 else 0
  }

  function And(x: nat, y: nat): nat {
    if x == 0 || y == 0 then 0
    else 2 * And(x / 2, y / 2) + if x % 2 == 1 && y % 2 == 1 then 1 else 0
  }

  function Shl(x: nat, n: nat): nat {
    if n == 0 then x else 2 * Shl(x, n - 1)
  }

  function Shr(x: nat, n: nat): nat {
    if n == 0 then x else Shr(x / 2, n - 1)
  }

  /** The number with n ones. */
  function Ones(n: nat): nat {
    if n == 0 then 0 else 2 * Ones(n - 1) + 1
  }

  lemma {:induction false} BitOfZero(k: nat)
    ensures !Bit(0, k)
  {
    if k > 0 {
      BitOfZero(k - 1);
    }
  }

  lemma {:induction false} OrBit(x: nat, y: nat, k: nat)
    ensures Bit(Or(x, y), k) <==> Bit(x, k) || Bit(y, k)
  {
    hide Or;
    OrHalves(x, y);
    if x == 0 && y == 0 {
      BitOfZero(k);
    } else if k > 0 {
      OrBit(x / 2, y / 2, k - 1);
    }
  }

  lemma OrHalves(x: nat, y: nat)
    ensures Or(x, y) / 2 == Or(x / 2, y / 2) && (Or(x, y) % 2 == 1 <==> x % 2 == 1 || y % 2 == 1)
    ensures x == 0 && y == 0 ==> Or(x, y) == 0
  {
  }

  lemma {:induction false} AndBit(x: nat, y: nat, k: nat)
    ensures Bit(And(x, y), k) <==> Bit(x, k) && Bit(y, k)
  {
    if x == 0 || y == 0 {
      BitOfZero(k);
    } else if k > 0 {
      assert And(x, y) / 2 == And(x / 2, y / 2);
      AndBit(x / 2, y / 2, k - 1);
    }
  }

  lemma {:induction false} ShlBit(x: nat, n: nat, k: nat)
    ensures Bit(Shl(x, n), k) <==> k >= n && Bit(x, k - n)
  {
    if n > 0 && k > 0 {
      assert Shl(x, n) / 2 == Shl(x, n - 1);
      ShlBit(x, n - 1, k - 1);
    }
  }

  lemma {:induction false} ShrBit(x: nat, n: nat, k: nat)
    ensures Bit(Shr(x, n), k) <==> Bit(x, k + n)
  {
    if n > 0 {
      ShrBit(x / 2, n - 1, k);
    }
  }

  lemma {:induction false} OnesBit(n: nat, k: nat)
    ensures Bit(Ones(n), k) <==> k < n
  {
    if n == 0 {
      BitOfZero(k);
    } else if k > 0 {
      assert Ones(n) / 2 == Ones(n - 1);
      OnesBit(n - 1, k - 1);
    }
  }

  lemma {:induction false} HighBitsClear(x: nat, n: nat, k: nat)
    requires x <= Ones(n) && k >= n
    ensures !Bit(x, k)
  {
    if n == 0 {
      BitOfZero(k);
    } else {
      HighBitsClear(x / 2, n - 1, k - 1);
    }
  }

  /** Numbers of n bits are told apart by them. */
  lemma {:induction false} SameBits(x: nat, y: nat, n: nat)
    requires x <= Ones(n) && y <= Ones(n)
    requires forall k | 0 <= k < n :: Bit(x, k) == Bit(y, k)
    ensures x == y
  {
    if n > 0 {
      assert Bit(x, 0) == Bit(y, 0);
      forall k | 0 <= k < n - 1 ensures Bit(x / 2, k) == Bit(y / 2, k) {
        assert Bit(x, k + 1) == Bit(y, k + 1);
      }
      SameBits(x / 2, y / 2, n - 1);
    }
  }

  lemma {:induction false} AndBound(x: nat, y: nat)
    ensures And(x, y) <= x && And(x, y) <= y
  {
    if x != 0 && y != 0 {
      AndBound(x / 2, y / 2);
    }
  }

  lemma {:induction false} OrBound(x: nat, y: nat, n: nat)
    requires x <= Ones(n) && y <= Ones(n)
    ensures Or(x, y) <= Ones(n)
  {
    if n > 0 && (x != 0 || y != 0) {
      OrBound(x / 2, y / 2, n - 1);
    }
  }

  lemma Ones32()
    ensures Ones(32) == TWO_32 - 1
  {
    assert Ones(8) == 0xFF;
    assert Ones(16) == 0xFFFF;
    assert Ones(24) == 0xFF_FFFF;
  }

  // ------------------------------------------------------------ rotation and masks

  /** rotl32, as written. */
  function Rotl32(value: Word, shift: nat): (r: nat)
    requires shift < 32
  {
    if shift == 0 then value else And(Or(Shl(value, shift), Shr(value, 32 - shift)), Ones(32))
  }

  /** It is ROTL32 of the Power ISA (Book I, 3.3.14): bit k comes from bit k - shift, round the word. */
  lemma Rotl32Bit(value: Word, shift: nat, k: nat)
    requires shift < 32 && k < 32
    ensures Bit(Rotl32(value, shift), k) <==> Bit(value, (k + 32 - shift) % 32)
  {
    hide Bit, Or, And, Shl, Shr, Ones;
    if shift > 0 {
      RotatedBit(value, shift, k);
      assert (k + 32 - shift) % 32 == if k >= shift then k - shift else k + 32 - shift;
    }
  }

  lemma RotatedBit(value: Word, shift: nat, k: nat)
    requires 0 < shift < 32 && k < 32
    ensures Bit(And(Or(Shl(value, shift), Shr(value, 32 - shift)), Ones(32)), k) <==>
      Bit(value, if k >= shift then k - shift else k + 32 - shift)
  {
    hide *;
    Ones32();
    AndBit(Or(Shl(value, shift), Shr(value, 32 - shift)), Ones(32), k);
    OrBit(Shl(value, shift), Shr(value, 32 - shift), k);
    ShlBit(value, shift, k);
    ShrBit(value, 32 - shift, k);
    OnesBit(32, k);
    if k >= shift {
      assert value <= Ones(32);
      HighBitsClear(value, 32, k + 32 - shift);
    }
  }

  /** Whether MASK(mb, me) has bit k set; the ISA counts bits from the most significant. */
  predicate InMask(mb: nat, me: nat, k: nat) {
    k < 32 && var bit := 31 - k; if mb <= me then mb <= bit <= me else bit >= mb || bit <= me
  }

  /** The ones among the first n bits from the left. */
  function MaskUpTo(mb: nat, me: nat, n: nat): (ones: nat)
    requires n <= 32
    ensures ones <= Ones(32)
  {
    if n == 0 then 0
    else if InMask(mb, me, 32 - n) then
      OneBound(32 - n);
      OrBound(MaskUpTo(mb, me, n - 1), Shl(1, 32 - n), 32);
      Or(MaskUpTo(mb, me, n - 1), Shl(1, 32 - n))
    else MaskUpTo(mb, me, n - 1)
  }

  function MaskOf(mb: nat, me: nat): Word {
    Ones32();
    MaskUpTo(mb, me, 32)
  }

  lemma {:induction false} MaskUpToBit(mb: nat, me: nat, n: nat, k: nat)
    requires n <= 32
    ensures Bit(MaskUpTo(mb, me, n), k) <==> InMask(mb, me, k) && 31 - k < n
  {
    if n == 0 {
      BitOfZero(k);
    } else {
      MaskUpToBit(mb, me, n - 1, k);
      OrBit(MaskUpTo(mb, me, n - 1), Shl(1, 32 - n), k);
      OneBit(32 - n, k);
    }
  }

  /** MASK(mb, me), wrapped masks included. */
  lemma MaskBit(mb: nat, me: nat, k: nat)
    ensures Bit(MaskOf(mb, me), k) <==> InMask(mb, me, k)
  {
    MaskUpToBit(mb, me, 32, k);
    hide MaskUpTo;
  }

  /** mask32: the ones of MASK(mb, me), set one by one. */
  method Mask32(mb: nat, me: nat) returns (bits: Word)
    requires mb < 32 && me < 32
    ensures forall k: nat :: Bit(bits, k) <==> InMask(mb, me, k)
    ensures bits == MaskOf(mb, me)
  {
    var ones: nat := 0;
    Ones32();
    for bit := 0 to 32
      invariant ones <= Ones(32) && ones == MaskUpTo(mb, me, bit)
    {
      if if mb <= me then mb <= bit <= me else bit >= mb || bit <= me {
        OneBound(31 - bit);
        OrBound(ones, Shl(1, 31 - bit), 32);
        ones := Or(ones, Shl(1, 31 - bit));
      }
    }
    bits := ones;
    forall k: nat ensures Bit(bits, k) <==> InMask(mb, me, k) {
      MaskBit(mb, me, k);
    }
  }

  lemma OneBit(n: nat, k: nat)
    ensures Bit(Shl(1, n), k) <==> k == n
  {
    ShlBit(1, n, k);
    if k > n {
      assert Bit(1, k - n) == Bit(0, k - n - 1);
      BitOfZero(k - n - 1);
    }
  }

  lemma {:induction false} OneBound(n: nat)
    requires n < 32
    ensures Shl(1, n) <= Ones(32)
  {
    ShlBelow(n);
    OnesGrow(n + 1, 32);
  }

  lemma {:induction false} ShlBelow(n: nat)
    ensures 1 <= Shl(1, n) <= Ones(n + 1)
  {
    if n > 0 {
      ShlBelow(n - 1);
    }
  }

  lemma {:induction false} OnesGrow(m: nat, n: nat)
    requires m <= n
    ensures Ones(m) <= Ones(n)
  {
    if m < n {
      OnesGrow(m, n - 1);
    }
  }
}
