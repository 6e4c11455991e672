// 64-bit machine words as polynomials over two elements: their bits, squares and shifts.
module MachineWords {

  predicate Bit(w: bv64, mask: bv64) {
    w & mask != 0
  }

  function Twice(m: bv64): bv64 {
    m << 1
  }

  function Up(m: bv64): bv64 {
    m << 32
  }

  // ---------- Masks ----------

  // The mask of bit i.
  function Mask(i: nat): bv64 {
    if i == 0 then 1 else Twice(Mask(i - 1))
  }

  predicate IsLow(m: bv64) {
    m & 0xFFFF_FFFF_0000_0000 == 0
  }

  predicate Single(m: bv64) {
    m != 0 && m & (m - 1) == 0
  }

  lemma MaskNext(i: nat)
    ensures Mask(i + 1) == Twice(Mask(i))
  {
  }

  lemma TwiceTwice(m: bv64)
    ensures Twice(Twice(m)) == m << 2
  {
  }

  lemma TwiceTwiceMore(m: bv64)
    ensures Twice(Twice(m << 2)) == m << 4
  {
  }

  function Sixteenfold(m: bv64): bv64 {
    m << 4
  }

  lemma FourTimes(m: bv64)
    ensures Twice(Twice(Twice(Twice(m)))) == Sixteenfold(m)
  {
    TwiceTwice(m);
    TwiceTwiceMore(m);
    hide Twice;
  }

  lemma FourOn(i: nat)
    ensures Mask(i + 4) == Sixteenfold(Mask(i))
  {
    hide Mask, Twice, Sixteenfold;
    MaskNext(i);
    MaskNext(i + 1);
    MaskNext(i + 2);
    MaskNext(i + 3);
    FourTimes(Mask(i));
  }

  lemma FirstMasks()
    ensures Mask(0) == 1 && Mask(3) == 8
  {
  }

  lemma MaskValues()
    ensures Mask(0) == 1 && Mask(31) == 0x8000_0000 && Mask(32) == 0x1_0000_0000
    ensures Mask(63) == 0x8000_0000_0000_0000
  {
    hide Mask;
    FirstMasks();
    FourOn(3);
    FourOn(7);
    FourOn(11);
    FourOn(15);
    FourOn(19);
    FourOn(23);
    FourOn(27);
    MaskNext(31);
    FourOn(31);
    FourOn(35);
    FourOn(39);
    FourOn(43);
    FourOn(47);
    FourOn(51);
    FourOn(55);
    FourOn(59);
  }

  // What has left the low half does not come back.
  lemma {:induction false} HighStays(i: nat, j: nat)
    requires i <= j && Mask(i) & 0xFFFF_FFFF == 0
    ensures Mask(j) & 0xFFFF_FFFF == 0
    decreases j
  {
    if i < j {
      HighStays(i, j - 1);
      hide Mask;
      MaskNext(j - 1);
    }
  }

  lemma {:induction false} ZeroStays(i: nat, j: nat)
    requires i <= j && Mask(i) == 0
    ensures Mask(j) == 0
    decreases j
  {
    if i < j {
      ZeroStays(i, j - 1);
    }
  }

  lemma SingleShift(m: bv64)
    requires Single(m) && m & 0x8000_0000_0000_0000 == 0
    ensures Single(Twice(m))
  {
  }

  lemma TopIsLast(m: bv64)
    requires Single(m) && m & 0x8000_0000_0000_0000 != 0
    ensures m << 1 == 0
  {
  }

  // The 64 masks are single bits.
  lemma {:induction false} MaskSingle(i: nat)
    requires i < 64
    ensures Single(Mask(i))
  {
    hide Mask, Twice;
    if i == 0 {
      MaskValues();
    } else {
      MaskSingle(i - 1);
      MaskBelowTop(i - 1);
      MaskNext(i - 1);
      SingleShift(Mask(i - 1));
    }
  }

  lemma MaskBelowTop(i: nat)
    requires i < 63 && Single(Mask(i))
    ensures Mask(i) & 0x8000_0000_0000_0000 == 0
  {
    hide Mask;
    if Mask(i) & 0x8000_0000_0000_0000 != 0 {
      TopIsLast(Mask(i));
      MaskNext(i);
      ZeroStays(i + 1, 63);
      MaskValues();
    }
  }

  lemma SingleHigh(m: bv64)
    requires Single(m) && !IsLow(m)
    ensures m & 0xFFFF_FFFF == 0
  {
  }

  lemma SingleAtEdge(m: bv64)
    requires Single(m) && m & 0x8000_0000 != 0
    ensures (m << 1) & 0xFFFF_FFFF == 0
  {
  }

  // The first 32 masks lie in the low half.
  lemma MaskLow(i: nat)
    requires i < 32
    ensures IsLow(Mask(i)) && (i < 31 ==> Mask(i) & 0x8000_0000 == 0)
  {
    hide Mask;
    MaskValues();
    MaskSingle(i);
    var m := Mask(i);
    if !IsLow(m) {
      SingleHigh(m);
      HighStays(i, 31);
    } else if i < 31 && m & 0x8000_0000 != 0 {
      SingleAtEdge(m);
      MaskNext(i);
      HighStays(i + 1, 31);
    }
  }

  lemma TwiceUp(m: bv64)
    ensures Twice(Up(m)) == m << 33
  {
  }

  lemma UpTwice(m: bv64)
    ensures Up(Twice(m)) == m << 33
  {
  }

  lemma ShiftsCommute(m: bv64)
    ensures Up(Twice(m)) == Twice(Up(m))
  {
    TwiceUp(m);
    UpTwice(m);
    hide Up, Twice;
  }

  lemma FirstHigh()
    ensures Mask(32) == Up(Mask(0))
  {
    hide Mask;
    MaskValues();
  }

  // The other 32 are the same bits of the high half.
  lemma {:induction false} MaskHigh(i: nat)
    ensures Mask(32 + i) == Up(Mask(i))
  {
    hide Mask, Twice, Up;
    if i == 0 {
      FirstHigh();
    } else {
      var h := i - 1;
      MaskHigh(h);
      MaskNext(32 + h);
      MaskNext(h);
      ShiftsCommute(Mask(h));
    }
  }

  // ---------- Interleaving ----------

  // The 32 low bits, with a zero above each of them.
  function Spread(x: bv64): bv64 {
    var h := x & 0xFFFF_FFFF;
    var a := (h | (h << 16)) & 0x0000_FFFF_0000_FFFF;
    var b := (a | (a << 8)) & 0x00FF_00FF_00FF_00FF;
    var c := (b | (b << 4)) & 0x0F0F_0F0F_0F0F_0F0F;
    var d := (c | (c << 2)) & 0x3333_3333_3333_3333;
    (d | (d << 1)) & 0x5555_5555_5555_5555
  }

  function Interleave(x: bv64, y: bv64): bv64 {
    Spread(x) | (Spread(y) << 1)
  }

  lemma SpreadEven(x: bv64, y: bv64, m: bv64)
    ensures (Spread(x) | (Spread(y) << 1)) & Spread(m) == Spread(x & m)
  {
  }

  lemma SpreadOdd(x: bv64, y: bv64, m: bv64)
    ensures (Spread(x) | (Spread(y) << 1)) & (Spread(m) << 1) == Spread(y & m) << 1
  {
  }

  lemma SpreadIsZero(z: bv64, m: bv64)
    requires IsLow(m)
    ensures Spread(z & m) == 0 <==> z & m == 0
    ensures Spread(z & m) << 1 == 0 <==> z & m == 0
  {
  }

  lemma InterleavedMasks(x: bv64, y: bv64, m: bv64)
    requires IsLow(m)
    ensures (Spread(x) | (Spread(y) << 1)) & Spread(m) != 0 <==> x & m != 0
    ensures (Spread(x) | (Spread(y) << 1)) & (Spread(m) << 1) != 0 <==> y & m != 0
  {
    SpreadEven(x, y, m);
    SpreadOdd(x, y, m);
    SpreadIsZero(x, m);
    SpreadIsZero(y, m);
    hide Spread, IsLow;
  }

  // The even bits of an interleaving are x's, the odd ones y's.
  lemma InterleavedEven(x: bv64, y: bv64, m: bv64)
    requires IsLow(m)
    ensures Bit(Interleave(x, y), Spread(m)) <==> Bit(x, m)
  {
    hide Spread, IsLow;
    InterleavedMasks(x, y, m);
  }

  lemma InterleavedOdd(x: bv64, y: bv64, m: bv64)
    requires IsLow(m)
    ensures Bit(Interleave(x, y), Twice(Spread(m))) <==> Bit(y, m)
  {
    hide Spread, IsLow;
    InterleavedMasks(x, y, m);
  }

  lemma SpreadApart(m: bv64)
    requires m & 0xFFFF_FFFF_8000_0000 == 0
    ensures Spread(m << 1) == (Spread(m) << 1) << 1
  {
  }

  lemma SpreadTwice(m: bv64)
    requires IsLow(m) && m & 0x8000_0000 == 0
    ensures Spread(Twice(m)) == Twice(Twice(Spread(m)))
  {
    SpreadApart(m);
    hide Spread;
  }

  lemma SpreadOne()
    ensures Spread(1) == 1
  {
  }

  lemma {:induction false} MaskSpread(i: nat)
    requires i < 32
    ensures Mask(2 * i) == Spread(Mask(i)) && Mask(2 * i + 1) == Twice(Spread(Mask(i)))
  {
    hide Mask, Spread, Twice;
    MaskNext(2 * i);
    if i == 0 {
      MaskValues();
      SpreadOne();
    } else {
      var h := i - 1;
      MaskSpread(h);
      MaskLow(h);
      SpreadTwice(Mask(h));
      MaskNext(h);
      MaskNext(2 * h + 1);
    }
  }

  // ---------- Squares and shifts ----------

  // The sum of two polynomials.
  function Plus(a: bv64, b: bv64): bv64 {
    a ^ b
  }

  // The square of a polynomial, reduced by the recurrence of the generator.
  function Square(w: bv64): bv64 {
    Interleave(EvenPart(w), OddPart(w))
  }

  function EvenPart(w: bv64): bv64 {
    Plus(Plus(Plus(Plus(w & 0xFFFF_FFFF, w >> 32), ((w >> 32) << 1) & 0xFFFF_FFFF), w >> 63), (w >> 63) << 1)
  }

  function OddPart(w: bv64): bv64 {
    Plus(w >> 32, w >> 63)
  }

  // One step of the generator.
  function Shifted(w: bv64): bv64 {
    if Bit(w, 0x8000_0000_0000_0000) then Plus(w << 1, 7) else w << 1
  }

  lemma BitXor(a: bv64, b: bv64, m: bv64)
    requires Single(m)
    ensures Bit(a ^ b, m) <==> Bit(a, m) != Bit(b, m)
  {
  }

  lemma BitPlus(a: bv64, b: bv64, m: bv64)
    requires Single(m)
    ensures Bit(Plus(a, b), m) <==> Bit(a, m) != Bit(b, m)
  {
    hide Bit, Single;
    BitXor(a, b, m);
  }

  lemma LowHalf(w: bv64, m: bv64)
    requires IsLow(m)
    ensures Bit(w & 0xFFFF_FFFF, m) <==> Bit(w, m)
  {
  }

  lemma HighHalf(w: bv64, m: bv64)
    requires IsLow(m)
    ensures Bit(w >> 32, m) <==> Bit(w, Up(m))
  {
  }

  lemma HighTwice(w: bv64, m: bv64)
    requires IsLow(m) && m & 0x8000_0000 == 0
    ensures Bit(((w >> 32) << 1) & 0xFFFF_FFFF, Twice(m)) <==> Bit(w, Up(m))
  {
  }

  lemma HighTwiceLowest(w: bv64)
    ensures !Bit(((w >> 32) << 1) & 0xFFFF_FFFF, 1)
  {
  }

  lemma TopAlone(w: bv64, m: bv64)
    ensures Bit(w >> 63, m) <==> Bit(m, 1) && Bit(w, 0x8000_0000_0000_0000)
    ensures Bit((w >> 63) << 1, m) <==> Bit(m, 2) && Bit(w, 0x8000_0000_0000_0000)
  {
  }

  lemma TwiceLowBits(m: bv64)
    ensures !Bit(Twice(m), 1) && (Bit(Twice(m), 2) <==> Bit(m, 1)) && (Bit(Twice(m), 4) <==> Bit(m, 2))
  {
  }

  lemma MaskLowBits(i: nat)
    ensures (Bit(Mask(i), 1) <==> i == 0) && (Bit(Mask(i), 2) <==> i == 1) && (Bit(Mask(i), 4) <==> i == 2)
  {
    hide Mask, Twice, Bit;
    FirstBits();
    if i > 0 {
      MaskNext(i - 1);
      TwiceLowBits(Mask(i - 1));
      if i > 1 {
        MaskNext(i - 2);
        TwiceLowBits(Mask(i - 2));
        if i > 2 {
          MaskNext(i - 3);
          TwiceLowBits(Mask(i - 3));
        }
      }
    }
  }

  lemma FirstBits()
    ensures Bit(Mask(0), 1) && !Bit(Mask(0), 2) && !Bit(Mask(0), 4)
  {
    MaskValues();
  }

  function Top(w: bv64): bool {
    Bit(w, Mask(63))
  }

  lemma EvenPartBits(w: bv64, i: nat)
    requires i < 32
    ensures Bit(EvenPart(w), Mask(i))
            <==> ((((Bit(w, Mask(i)) != Bit(w, Mask(32 + i))) != (i > 0 && Bit(w, Mask(31 + i))))
                   != (i == 0 && Top(w))) != (i == 1 && Top(w)))
  {
    hide Mask, Twice, Up, Single, Bit, IsLow;
    var m := Mask(i);
    MaskSingle(i);
    MaskLow(i);
    MaskHigh(i);
    MaskValues();
    MaskLowBits(i);
    LowHalf(w, m);
    HighHalf(w, m);
    TopAlone(w, m);
    if i == 0 {
      HighTwiceLowest(w);
    } else {
      MaskLow(i - 1);
      MaskHigh(i - 1);
      MaskNext(i - 1);
      HighTwice(w, Mask(i - 1));
    }
    EvenPartSum(w, m);
  }

  lemma EvenPartSum(w: bv64, m: bv64)
    requires Single(m)
    ensures Bit(EvenPart(w), m)
            <==> ((((Bit(w & 0xFFFF_FFFF, m) != Bit(w >> 32, m)) != Bit(((w >> 32) << 1) & 0xFFFF_FFFF, m))
                   != Bit(w >> 63, m)) != Bit((w >> 63) << 1, m))
  {
    hide Bit, Single, Plus;
    var a, b, c := w & 0xFFFF_FFFF, w >> 32, ((w >> 32) << 1) & 0xFFFF_FFFF;
    BitPlus(a, b, m);
    BitPlus(Plus(a, b), c, m);
    BitPlus(Plus(Plus(a, b), c), w >> 63, m);
    BitPlus(Plus(Plus(Plus(a, b), c), w >> 63), (w >> 63) << 1, m);
  }

  lemma OddPartBits(w: bv64, i: nat)
    requires i < 32
    ensures Bit(OddPart(w), Mask(i)) <==> Bit(w, Mask(32 + i)) != (i == 0 && Top(w))
  {
    hide Mask, Twice, Up, Single, Bit, IsLow, OddPart;
    MaskSingle(i);
    OddPartSum(w, Mask(i));
    MaskLow(i);
    MaskHigh(i);
    MaskValues();
    MaskLowBits(i);
    HighHalf(w, Mask(i));
    TopAlone(w, Mask(i));
  }

  lemma OddPartSum(w: bv64, m: bv64)
    requires Single(m)
    ensures Bit(OddPart(w), m) <==> Bit(w >> 32, m) != Bit(w >> 63, m)
  {
    hide Bit, Single, Plus;
    BitPlus(w >> 32, w >> 63, m);
  }

  lemma InterleavedBits(w: bv64, m: bv64)
    requires IsLow(m)
    ensures Bit(Square(w), Spread(m)) <==> Bit(EvenPart(w), m)
    ensures Bit(Square(w), Twice(Spread(m))) <==> Bit(OddPart(w), m)
  {
    hide Spread, EvenPart, OddPart, IsLow, Bit, Twice, Interleave;
    InterleavedEven(EvenPart(w), OddPart(w), m);
    InterleavedOdd(EvenPart(w), OddPart(w), m);
  }

  // Each bit of the square is a sum of at most four bits of the word.
  lemma SquareBits(w: bv64, i: nat)
    requires i < 32
    ensures Bit(Square(w), Mask(2 * i))
            <==> ((((Bit(w, Mask(i)) != Bit(w, Mask(32 + i))) != (i > 0 && Bit(w, Mask(31 + i))))
                   != (i == 0 && Top(w))) != (i == 1 && Top(w)))
    ensures Bit(Square(w), Mask(2 * i + 1)) <==> Bit(w, Mask(32 + i)) != (i == 0 && Top(w))
  {
    hide Mask, Twice, Bit, IsLow, Spread, Square, EvenPart, OddPart, Top;
    MaskLow(i);
    MaskSpread(i);
    InterleavedBits(w, Mask(i));
    EvenPartBits(w, i);
    OddPartBits(w, i);
  }

  lemma ShiftBelowTop(w: bv64, m: bv64)
    requires m & 0x8000_0000_0000_0000 == 0
    ensures Bit(w << 1, Twice(m)) <==> Bit(w, m)
  {
  }

  lemma ShiftLowest(w: bv64)
    ensures !Bit(w << 1, 1)
  {
  }

  lemma SevenBits(m: bv64)
    ensures Bit(7, m) <==> Bit(m, 1) || Bit(m, 2) || Bit(m, 4)
  {
  }

  lemma ShiftedSum(w: bv64, m: bv64)
    requires Single(m)
    ensures Bit(Shifted(w), m)
            <==> Bit(w << 1, m) != (Bit(w, 0x8000_0000_0000_0000) && (Bit(m, 1) || Bit(m, 2) || Bit(m, 4)))
  {
    hide Bit, Single, Plus;
    BitPlus(w << 1, 7, m);
    SevenBits(m);
  }

  lemma ShiftedBits(w: bv64, i: nat)
    requires i < 64
    ensures Bit(Shifted(w), Mask(i)) <==> (i > 0 && Bit(w, Mask(i - 1))) != (i <= 2 && Top(w))
  {
    hide Mask, Twice, Single, Bit, Shifted;
    MaskSingle(i);
    ShiftedSum(w, Mask(i));
    MaskValues();
    MaskLowBits(i);
    if i == 0 {
      ShiftLowest(w);
    } else {
      MaskSingle(i - 1);
      MaskBelowTop(i - 1);
      MaskNext(i - 1);
      ShiftBelowTop(w, Mask(i - 1));
    }
  }
}
