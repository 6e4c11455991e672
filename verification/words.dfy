// Unsigned machine words read as natural numbers.
module Words {

  type uint32 = x: int | 0 <= x < 0x1_0000_0000
  type int32 = x: int | -0x8000_0000 <= x < 0x8000_0000
  type int64 = x: int | -0x8000_0000_0000_0000 <= x < 0x8000_0000_0000_0000

  function Pow2(k: nat): (p: nat)
    ensures p > 0
  {
    if k == 0 then 1 else 2 * Pow2(k - 1)
  }

  lemma Pow2Monotone(j: nat, k: nat)
    requires j <= k
    ensures Pow2(j) <= Pow2(k)
    decreases k
  {
    if j < k {
      Pow2Monotone(j, k - 1);
    }
  }

  lemma {:induction false} Pow2Add(j: nat, k: nat)
    ensures Pow2(j + k) == Pow2(j) * Pow2(k)
  {
    if k > 0 {
      Pow2Add(j, k - 1);
    }
  }

  lemma Pow2Values()
    ensures Pow2(16) == 0x1_0000 && Pow2(31) == 0x8000_0000 && Pow2(32) == 0x1_0000_0000
    ensures Pow2(63) == 0x8000_0000_0000_0000
  {
    assert Pow2(4) == 16;
    Pow2Add(4, 4);
    Pow2Add(8, 8);
    Pow2Add(16, 16);
    assert Pow2(32) == 2 * Pow2(31);
    Pow2Add(32, 31);
  }

  // The operator n >> k on a non-negative integer.
  function ShiftRight(n: nat, k: nat): nat {
    if k == 0 then n else ShiftRight(n, k - 1) / 2
  }

  lemma {:induction false} ShiftIsQuotient(n: nat, k: nat)
    ensures ShiftRight(n, k) == n / Pow2(k)
  {
    if k > 0 {
      ShiftIsQuotient(n, k - 1);
      HalveQuotient(n, Pow2(k - 1));
    }
  }

  lemma ScaleOrder(d: nat, a: nat, b: nat)
    requires a <= b
    ensures d * a <= d * b
  {
  }

  lemma QuotientUnique(n: nat, d: nat, q: nat, rest: nat)
    requires rest < d && n == d * q + rest
    ensures n / d == q && n % d == rest
  {
    var c := n / d;
    assert n == d * c + n % d;
    if c < q {
      ScaleOrder(d, c + 1, q);
    } else if c > q {
      ScaleOrder(d, q + 1, c);
    }
  }

  // The bit shifted out of n is the low bit of the remainder modulo 2 * d.
  lemma DivideByDouble(n: nat, d: nat)
    requires d > 0
    ensures n / (2 * d) == n / 2 / d
    ensures n % (2 * d) == 2 * (n / 2 % d) + n % 2
  {
    var h, e := n / 2, 2 * d;
    var q := h / d;
    assert d * q + h % d == h;
    assert e * q == 2 * (d * q);
    QuotientUnique(n, e, q, 2 * (h % d) + n % 2);
  }

  lemma HalveQuotient(n: nat, d: nat)
    requires d > 0
    ensures n / (2 * d) == n / d / 2
  {
    var a := n / d;
    var q, e := a / 2, 2 * d;
    var odd := a - 2 * q;
    assert d * a + n % d == n;
    assert d * a == e * q + d * odd;
    if odd == 0 {
      assert d * odd == 0;
    } else {
      assert d * odd == d;
    }
    QuotientUnique(n, e, q, d * odd + n % d);
  }

  // The operator a & b on non-negative integers.
  function And(a: nat, b: nat): (r: nat)
    ensures r <= a && r <= b
  {
    if a == 0 || b == 0 then 0
    else 2 * And(a / 2, b / 2) + (if a % 2 == 1 && b % 2 == 1 then 1 else 0)
  }

  // Bit i of a non-negative integer.
  predicate BitOf(n: nat, i: nat) {
    ShiftRight(n, i) % 2 == 1
  }

  lemma {:induction false} BitOfHalf(n: nat, i: nat)
    requires i > 0
    ensures ShiftRight(n, i) == ShiftRight(n / 2, i - 1)
  {
    if i > 1 {
      BitOfHalf(n, i - 1);
    }
  }

  // The operator works on each bit by itself.
  lemma {:induction false} AndBits(a: nat, b: nat, i: nat)
    ensures BitOf(And(a, b), i) <==> BitOf(a, i) && BitOf(b, i)
    decreases i
  {
    if a == 0 || b == 0 {
      NoBits(i);
    } else if i > 0 {
      AndBits(a / 2, b / 2, i - 1);
      BitOfHalf(a, i);
      BitOfHalf(b, i);
      BitOfHalf(And(a, b), i);
    }
  }

  lemma {:induction false} NoBits(i: nat)
    ensures ShiftRight(0, i) == 0
  {
    if i > 0 {
      NoBits(i - 1);
    }
  }

  lemma {:induction false} LowBitsSet(k: nat, i: nat)
    ensures BitOf(Pow2(k) - 1, i) <==> i < k
    decreases k
  {
    if k == 0 {
      NoBits(i);
    } else if i > 0 {
      LowBitsSet(k - 1, i - 1);
      assert (Pow2(k) - 1) / 2 == Pow2(k - 1) - 1;
      BitOfHalf(Pow2(k) - 1, i);
    }
  }

  predicate IsPow2(n: nat) {
    n == 1 || (n > 0 && n % 2 == 0 && IsPow2(n / 2))
  }

  lemma MaskDouble(v: nat, h: nat)
    requires h > 0
    ensures And(v, 2 * h - 1) == 2 * And(v / 2, h - 1) + v % 2
  {
    assert (2 * h - 1) / 2 == h - 1;
  }

  // Masking with a power of two less one keeps the low bits.
  lemma {:induction false} MaskIsRemainder(v: nat, n: nat)
    requires IsPow2(n)
    ensures And(v, n - 1) == v % n
  {
    if n > 1 {
      var h := n / 2;
      MaskIsRemainder(v / 2, h);
      DivideByDouble(v, h);
      MaskDouble(v, h);
      assert n == 2 * h;
    }
  }

  // n & (n - 1) clears the lowest set bit, so it is zero exactly for powers of two.
  lemma {:induction false} SingleBit(n: nat)
    requires n > 0
    ensures And(n, n - 1) == 0 <==> IsPow2(n)
  {
    if n % 2 == 0 {
      SingleBit(n / 2);
      assert (n - 1) / 2 == n / 2 - 1;
    } else if n > 1 {
      assert (n - 1) / 2 == n / 2;
      AndSelf(n / 2);
    }
  }

  lemma {:induction false} AndSelf(a: nat)
    ensures And(a, a) == a
  {
    if a > 0 {
      AndSelf(a / 2);
    }
  }

  // A 64-bit word, least significant bit first.
  datatype Bits = Bits(bits: seq<bool>)
  type Word = w: Bits | |w.bits| == 64 witness Bits(Ones(64, 0))

  // A run of n bits of which the lowest k are set.
  function Ones(n: nat, k: nat): (bits: seq<bool>)
    ensures |bits| == n
  {
    seq(n, i => i < k)
  }

  function Zero(): Word {
    Bits(Ones(64, 0))
  }

  function One(): Word {
    Bits(Ones(64, 1))
  }

  function Xor(a: Word, b: Word): Word {
    Bits(seq(64, i requires 0 <= i < 64 => a.bits[i] != b.bits[i]))
  }

  function ShiftLeft(a: Word): Word {
    Bits([false] + a.bits[..63])
  }

  // The unsigned value of a run of bits.
  function Value(bits: seq<bool>): nat {
    if bits == [] then 0 else (if bits[0] then 1 else 0) + 2 * Value(bits[1..])
  }

  lemma {:induction false} ValueBits(bits: seq<bool>, i: nat)
    ensures BitOf(Value(bits), i) <==> i < |bits| && bits[i]
  {
    if bits == [] {
      NoBits(i);
    } else if i > 0 {
      ValueBits(bits[1..], i - 1);
      BitOfHalf(Value(bits), i);
    }
  }

  lemma XorZero(a: Word)
    ensures Xor(a, Zero()) == a && Xor(Zero(), a) == a && Xor(a, a) == Zero()
  {
    assert Xor(a, Zero()).bits == a.bits && Xor(Zero(), a).bits == a.bits;
    assert Xor(a, a).bits == Zero().bits;
  }

  lemma XorCommutes(a: Word, b: Word)
    ensures Xor(a, b) == Xor(b, a)
  {
    assert Xor(a, b).bits == Xor(b, a).bits;
  }

  lemma XorAssociates(a: Word, b: Word, c: Word)
    ensures Xor(Xor(a, b), c) == Xor(a, Xor(b, c))
  {
    assert Xor(Xor(a, b), c).bits == Xor(a, Xor(b, c)).bits;
  }

  lemma XorSwap(a: Word, b: Word, c: Word, d: Word)
    ensures Xor(Xor(a, b), Xor(c, d)) == Xor(Xor(a, c), Xor(b, d))
  {
    assert Xor(Xor(a, b), Xor(c, d)).bits == Xor(Xor(a, c), Xor(b, d)).bits;
  }

  // A term added twice cancels.
  lemma XorCancel(a: Word, b: Word, c: Word)
    ensures Xor(Xor(a, b), Xor(b, c)) == Xor(a, c)
  {
    assert Xor(Xor(a, b), Xor(b, c)).bits == Xor(a, c).bits;
  }
}
