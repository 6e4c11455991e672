// The shift-register generator as arithmetic on polynomials over two elements.
module Generator {
  import opened Words

  // ---------- The generator ----------

  // The polynomial x^2 + x + 1, written 7 in binary.
  function Poly(): Word {
    Bits(Ones(64, 3))
  }

  // One generator step: shift left, and add the polynomial when the sign bit falls out.
  function Step(r: Word): Word {
    Xor(ShiftLeft(r), if r.bits[63] then Poly() else Zero())
  }

  // The simple form: n generator steps, one at a time.
  function Steps(r: Word, n: nat): Word {
    if n == 0 then r else Step(Steps(r, n - 1))
  }

  lemma StepsNext(r: Word, n: nat)
    ensures Steps(r, n + 1) == Step(Steps(r, n))
  {
  }

  lemma StepLinear(a: Word, b: Word)
    ensures Step(Xor(a, b)) == Xor(Step(a), Step(b))
  {
    assert Step(Xor(a, b)).bits == Xor(Step(a), Step(b)).bits;
  }

  lemma {:induction false} StepsLinear(a: Word, b: Word, n: nat)
    ensures Steps(Xor(a, b), n) == Xor(Steps(a, n), Steps(b, n))
  {
    hide Step, Xor;
    if n > 0 {
      StepsLinear(a, b, n - 1);
      StepLinear(Steps(a, n - 1), Steps(b, n - 1));
    }
  }

  lemma {:induction false} StepsAdd(r: Word, m: nat, n: nat)
    ensures Steps(Steps(r, m), n) == Steps(r, m + n)
  {
    hide Step;
    if n > 0 {
      StepsAdd(r, m, n - 1);
    }
  }

  lemma {:induction false} StepsZero(n: nat)
    ensures Steps(Zero(), n) == Zero()
  {
    if n > 0 {
      StepsZero(n - 1);
      XorZero(Zero());
      assert ShiftLeft(Zero()).bits == Zero().bits;
    }
  }

  // The product r(x) * s(x) over the low k coefficients of r: a step multiplies by x.
  function Product(r: Word, s: Word, k: nat): Word
    requires k <= 64
  {
    if k == 0 then Zero()
    else Xor(Product(r, s, k - 1), if r.bits[k - 1] then Steps(s, k - 1) else Zero())
  }

  lemma {:induction false} ProductLinear(r: Word, a: Word, b: Word, k: nat)
    requires k <= 64
    ensures Product(r, Xor(a, b), k) == Xor(Product(r, a, k), Product(r, b, k))
  {
    hide Xor, Steps;
    if k == 0 {
      XorZero(Zero());
    } else {
      var j := k - 1;
      ProductLinear(r, a, b, j);
      StepsLinear(a, b, j);
      XorSwap(Product(r, a, j), Product(r, b, j),
              if r.bits[j] then Steps(a, j) else Zero(), if r.bits[j] then Steps(b, j) else Zero());
      XorZero(Zero());
    }
  }

  lemma {:induction false} ProductOfSteps(r: Word, s: Word, m: nat, k: nat)
    requires k <= 64
    ensures Product(r, Steps(s, m), k) == Steps(Product(r, s, k), m)
  {
    hide Xor, Steps;
    StepsZero(m);
    if k > 0 {
      var j := k - 1;
      ProductOfSteps(r, s, m, j);
      StepsLinear(Product(r, s, j), if r.bits[j] then Steps(s, j) else Zero(), m);
      StepsAdd(s, m, j);
      StepsAdd(s, j, m);
    }
  }

  // x^k is a single bit while k < 64.
  lemma {:induction false} StepsOfOne(k: nat)
    requires k < 64
    ensures forall i :: 0 <= i < 64 ==> Steps(One(), k).bits[i] == (i == k)
  {
    if k > 0 {
      StepsOfOne(k - 1);
      XorZero(ShiftLeft(Steps(One(), k - 1)));
    }
  }

  lemma {:induction false} LowBits(r: Word, k: nat)
    requires k <= 64
    ensures forall i :: 0 <= i < 64 ==> Product(r, One(), k).bits[i] == (i < k && r.bits[i])
  {
    if k > 0 {
      LowBits(r, k - 1);
      StepsOfOne(k - 1);
    }
  }

  // A word is the sum of its bits.
  lemma ProductWithOne(r: Word)
    ensures Product(r, One(), 64) == r
  {
    LowBits(r, 64);
    assert Product(r, One(), 64).bits == r.bits;
  }

  lemma TopBitFallsOut(r: Word)
    requires forall i :: 0 <= i < 64 ==> r.bits[i] == (i == 63)
    ensures forall i :: 0 <= i < 64 ==> Step(r).bits[i] == (i == 2 || i == 1 || i == 0)
  {
  }

  lemma ThreeBits(a: Word, b: Word, c: Word)
    requires forall i :: 0 <= i < 64 ==> a.bits[i] == (i == 2) && b.bits[i] == (i == 1) && c.bits[i] == (i == 0)
    ensures forall i :: 0 <= i < 64 ==> Xor(a, Xor(b, c)).bits[i] == (i == 2 || i == 1 || i == 0)
  {
  }

  lemma SixtyFourthPower()
    ensures Steps(One(), 64) == Xor(Steps(One(), 2), Xor(Steps(One(), 1), One()))
  {
    hide Steps, Step, Xor;
    StepsNext(One(), 63);
    StepsOfOne(63);
    StepsOfOne(2);
    StepsOfOne(1);
    ThreeBits(Steps(One(), 2), Steps(One(), 1), One());
    TopBitFallsOut(Steps(One(), 63));
    assert Steps(One(), 64).bits == Xor(Steps(One(), 2), Xor(Steps(One(), 1), One())).bits;
  }

  lemma LowThree()
    ensures forall i :: 0 <= i < 64 ==> Steps(One(), 64).bits[i] == (i <= 2)
  {
    hide Steps, Step, Xor;
    StepsOfOne(63);
    StepsNext(One(), 63);
    TopBitFallsOut(Steps(One(), 63));
  }

  // The recurrence of the generator: x^64 + x^2 + x + 1 is zero.
  lemma GeneratorRecurrence(r: Word)
    ensures Steps(r, 64) == Xor(Steps(r, 2), Xor(Steps(r, 1), r))
  {
    hide Xor, Steps, Product;
    var one, two := Steps(One(), 1), Steps(One(), 2);
    ProductWithOne(r);
    SixtyFourthPower();
    ProductOfSteps(r, One(), 64, 64);
    ProductOfSteps(r, One(), 2, 64);
    ProductOfSteps(r, One(), 1, 64);
    ProductLinear(r, two, Xor(one, One()), 64);
    ProductLinear(r, one, One(), 64);
  }

  // The pass over the m2 table, where m2[j] holds x^(2j).
  function SquarePass(r: Word, k: nat): Word
    requires k <= 64
  {
    if k == 0 then Zero()
    else Xor(SquarePass(r, k - 1), if r.bits[k - 1] then Steps(One(), 2 * (k - 1)) else Zero())
  }

  // Adding the term x^j to a sum squares to the two squares: the cross terms are equal.
  lemma SquareOfSum(r: Word, j: nat)
    requires j < 64
    ensures var low, top := Product(r, One(), j), Steps(One(), j);
            Xor(Product(r, Xor(low, top), j), Steps(Xor(low, top), j))
            == Xor(Product(r, low, j), Steps(One(), 2 * j))
  {
    hide Xor, Steps, Product;
    var low, top := Product(r, One(), j), Steps(One(), j);
    ProductLinear(r, low, top, j);
    ProductOfSteps(r, One(), j, j);
    StepsLinear(low, top, j);
    StepsAdd(One(), j, j);
    XorCancel(Product(r, low, j), Steps(low, j), Steps(top, j));
  }

  // Squaring in characteristic two: only the even powers are left.
  lemma {:induction false} CrossTermsCancel(r: Word, k: nat)
    requires k <= 64
    ensures Product(r, Product(r, One(), k), k) == SquarePass(r, k)
  {
    hide Xor, Steps;
    if k > 0 {
      var j := k - 1;
      var low := Product(r, One(), j);
      CrossTermsCancel(r, j);
      XorZero(low);
      XorZero(Product(r, low, j));
      if r.bits[j] {
        SquareOfSum(r, j);
      }
    }
  }

  // One pass over the m2 table doubles the exponent.
  lemma SquareDoublesExponent(m: nat)
    ensures SquarePass(Steps(One(), m), 64) == Steps(One(), 2 * m)
  {
    hide Xor, Steps, Product, SquarePass;
    var r := Steps(One(), m);
    ProductWithOne(r);
    CrossTermsCancel(r, 64);
    ProductOfSteps(r, One(), m, 64);
    StepsAdd(One(), m, m);
  }

  // ---------- Squaring bit by bit ----------

  // The coefficients of x^(2j): past x^63 the recurrence brings them back, twice for x^126.
  function EvenPowerBit(j: nat, i: nat): bool {
    if j < 32 then i == 2 * j
    else i + 64 == 2 * j || i + 63 == 2 * j || i + 62 == 2 * j || (j == 63 && i <= 2)
  }

  lemma EvenPower(j: nat)
    requires j < 64
    ensures forall i :: 0 <= i < 64 ==> Steps(One(), 2 * j).bits[i] == EvenPowerBit(j, i)
  {
    hide Steps;
    if j < 32 {
      StepsOfOne(2 * j);
    } else {
      var c := 2 * j - 64;
      StepsAdd(One(), c, 64);
      GeneratorRecurrence(Steps(One(), c));
      StepsAdd(One(), c, 1);
      StepsAdd(One(), c, 2);
      StepsOfOne(c);
      StepsOfOne(c + 1);
      if c < 62 {
        StepsOfOne(c + 2);
      } else {
        LowThree();
      }
    }
  }

  // Bit i of the square of a word's k low coefficients.
  function SquareBit(r: Word, k: nat, i: nat): bool
    requires i < 64
  {
    if i % 2 == 0 then
      ((BelowBit(r, k, i / 2) != BelowBit(r, k, 32 + i / 2)) != (i > 0 && BelowBit(r, k, 31 + i / 2)))
      != (i <= 2 && BelowBit(r, k, 63))
    else BelowBit(r, k, 32 + i / 2) != (i == 1 && BelowBit(r, k, 63))
  }

  function BelowBit(r: Word, k: nat, j: nat): bool
    requires j < 64
  {
    j < k && r.bits[j]
  }

  lemma {:induction false} SquarePassBits(r: Word, k: nat)
    requires k <= 64
    ensures forall i :: 0 <= i < 64 ==> SquarePass(r, k).bits[i] == SquareBit(r, k, i)
  {
    if k > 0 {
      hide Steps, SquareBit, EvenPowerBit;
      SquarePassBits(r, k - 1);
      EvenPower(k - 1);
      forall i | 0 <= i < 64
        ensures SquareBit(r, k, i) == (SquareBit(r, k - 1, i) != (r.bits[k - 1] && EvenPowerBit(k - 1, i)))
      {
        SquareBitNext(r, k, i);
      }
    } else {
      hide Steps;
    }
  }

  lemma SquareBitNext(r: Word, k: nat, i: nat)
    requires 0 < k <= 64 && i < 64
    ensures SquareBit(r, k, i) == (SquareBit(r, k - 1, i) != (r.bits[k - 1] && EvenPowerBit(k - 1, i)))
  {
  }
}
