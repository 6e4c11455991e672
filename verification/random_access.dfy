// The jump-ahead form of the generator and the XOR table it drives.
module RandomAccess {
  import opened Words
  import opened Sequences
  import opened Generator
  import opened Period

  // ---------- Jumping ahead ----------

  // The index that the two normalising loops leave.
  function ReducedIndex(n: int): nat {
    if n < 0 then n % PERIOD
    else if n <= PERIOD then n
    else (n - 1) % PERIOD + 1
  }

  lemma ReducedIndexIsCongruent(n: int)
    ensures ReducedIndex(n) <= PERIOD && (ReducedIndex(n) - n) % PERIOD == 0
    ensures 0 <= n <= PERIOD ==> ReducedIndex(n) == n
    ensures n < 0 ==> ReducedIndex(n) < PERIOD
    ensures n > PERIOD ==> 0 < ReducedIndex(n) < n
  {
  }

  lemma TopBit(n: nat)
    requires n <= PERIOD
    ensures ShiftRight(n, 63) == 0
  {
    Pow2Values();
    ShiftIsQuotient(n, 63);
  }

  // The simple form of the jump: as many single steps as the reduced index says.
  function Start(n: int): Word {
    Steps(One(), ReducedIndex(n))
  }

  // Reducing the index loses nothing: the generator returns after PERIOD steps. A negative index is
  // a start from which as many steps lead to one.
  lemma StartIsExact(n: int)
    ensures n >= 0 ==> Start(n) == Steps(One(), n)
    ensures n < 0 ==> Steps(Start(n), -n) == One()
  {
    hide Steps, ReducedIndex;
    ReducedIndexIsCongruent(n);
    var m := ReducedIndex(n);
    if n > PERIOD {
      var k := (n - m) / PERIOD;
      WholeMultiple(n - m);
      WholePeriods(One(), m, k);
    } else if n < 0 {
      var k := (m - n) / PERIOD;
      WholeMultiple(m - n);
      StepsAdd(One(), m, -n);
      WholePeriods(One(), 0, k);
      NoSteps(One());
    }
  }

  lemma WholeMultiple(d: int)
    requires d % PERIOD == 0 || -d % PERIOD == 0
    ensures d / PERIOD * PERIOD == d
  {
  }

  lemma NoSteps(r: Word)
    ensures Steps(r, 0) == r
  {
  }

  // The two normalising loops.
  method NormaliseIndex(n: int64) returns (m: int64)
    ensures m == ReducedIndex(n)
  {
    m := n;
    while m < 0
      invariant ReducedIndex(m) == ReducedIndex(n)
    {
      m := m + PERIOD;
    }
    while m > PERIOD
      invariant m >= 0 && ReducedIndex(m) == ReducedIndex(n)
    {
      m := m - PERIOD;
    }
  }

  predicate HoldsSquares(m2: array<Word>)
    reads m2
  {
    m2.Length == 64 && forall k :: 0 <= k < 64 ==> m2[k] == Steps(One(), 2 * k)
  }

  // The table of squared basis elements: two steps for each entry.
  method FillSquares() returns (m2: array<Word>)
    ensures HoldsSquares(m2)
  {
    hide Step;
    m2 := new Word[64];
    var temp := One();
    for i := 0 to 64
      invariant temp == Steps(One(), 2 * i)
      invariant forall k :: 0 <= k < i ==> m2[k] == Steps(One(), 2 * k)
    {
      m2[i] := temp;
      temp := Step(temp);
      temp := Step(temp);
    }
  }

  // The scan for the highest set bit of a positive index.
  method FindTopBit(m: int64) returns (i: nat)
    requires 0 < m <= PERIOD
    ensures i <= 62 && ShiftRight(m, i) == 1
  {
    TopBit(m);
    var at := 62;
    while at >= 0 && ShiftRight(m, at) % 2 == 0
      invariant -1 <= at <= 62
      invariant ShiftRight(m, at + 1) == 0
    {
      at := at - 1;
    }
    i := at;
  }

  // The inner loop over the bits of ran.
  method SquareByTable(m2: array<Word>, ran: Word) returns (temp: Word)
    requires HoldsSquares(m2)
    ensures temp == SquarePass(ran, 64)
  {
    hide Xor, Steps;
    temp := Zero();
    for j := 0 to 64
      invariant temp == SquarePass(ran, j)
    {
      if ran.bits[j] {
        temp := Xor(temp, m2[j]);
      } else {
        XorZero(temp);
      }
    }
  }

  lemma TwoIsOneStep()
    ensures ShiftLeft(One()) == Steps(One(), 1)
  {
    XorZero(ShiftLeft(One()));
  }

  // One turn of the main loop moves the exponent on by one bit of m.
  lemma DoubleAndAdd(m: nat, i: nat)
    ensures var squared := SquarePass(Steps(One(), ShiftRight(m, i + 1)), 64);
            Steps(One(), ShiftRight(m, i)) == if ShiftRight(m, i) % 2 == 1 then Step(squared) else squared
  {
    hide Step, Xor, SquarePass;
    var half, n := ShiftRight(m, i + 1), ShiftRight(m, i);
    SquareDoublesExponent(half);
    assert n == 2 * half + n % 2;
  }

  lemma StartIs(n: int)
    ensures Start(n) == Steps(One(), ReducedIndex(n))
    ensures ReducedIndex(n) == 0 ==> Start(n) == One()
  {
  }

  method HpccStarts(n: int64) returns (ran: Word)
    ensures ran == Start(n)
    ensures n >= 0 ==> ran == Steps(One(), n)
    ensures n < 0 ==> Steps(ran, -(n as int)) == One()
  {
    hide Step, Xor, SquarePass, Start;
    StartIsExact(n);
    StartIs(n);
    var m := NormaliseIndex(n);
    if m == 0 {
      return One();
    }
    var m2 := FillSquares();
    var i := FindTopBit(m);
    ran := ShiftLeft(One());
    TwoIsOneStep();
    while i > 0
      invariant HoldsSquares(m2)
      invariant ran == Steps(One(), ShiftRight(m, i))
    {
      ran := SquareByTable(m2, ran);
      i := i - 1;
      DoubleAndAdd(m, i);
      if ShiftRight(m, i) % 2 == 1 {
        ran := Step(ran);
      }
    }
  }

  // ---------- The XOR table ----------

  // The cell an update touches: the low bits of the word, for a table of a power of two cells.
  function Index(ran: Word, size: nat): (k: nat)
    requires size > 0
    ensures k < size
  {
    And(Value(ran.bits), size - 1)
  }

  lemma IndexIsLowBits(ran: Word, size: nat)
    requires IsPow2(size)
    ensures Index(ran, size) == Value(ran.bits) % size
  {
    MaskIsRemainder(Value(ran.bits), size);
  }

  // For a table of 2^k cells the index is made of the k low bits of the word.
  lemma IndexBits(ran: Word, k: nat, i: nat)
    ensures BitOf(Index(ran, Pow2(k)), i) <==> i < k && i < 64 && ran.bits[i]
  {
    AndBits(Value(ran.bits), Pow2(k) - 1, i);
    LowBitsSet(k, i);
    ValueBits(ran.bits, i);
  }

  function Update(t: seq<Word>, ran: Word): (u: seq<Word>)
    requires |t| > 0
    ensures |u| == |t|
  {
    var k := Index(ran, |t|);
    t[k := Xor(t[k], ran)]
  }

  // The table after n updates, by the words that n steps from ran generate.
  function Updates(t: seq<Word>, ran: Word, n: nat): (u: seq<Word>)
    requires n > 0 ==> |t| > 0
    ensures |u| == |t|
  {
    if n == 0 then t else Update(Updates(t, ran, n - 1), Steps(ran, n - 1))
  }

  // A run of updates begins with the seed itself and goes on from the next word.
  lemma {:induction false} UpdatesFirst(t: seq<Word>, ran: Word, n: nat)
    requires |t| > 0
    ensures var k := Index(ran, |t|);
            Updates(t, ran, n + 1) == Updates(t[k := Xor(t[k], ran)], Step(ran), n)
  {
    hide Xor, Step, Index;
    StepsAdd(ran, 1, n);
    OneStep(ran);
    if n == 0 {
      assert Updates(t, ran, 0) == t;
    } else {
      UpdatesFirst(t, ran, n - 1);
      StepsAdd(ran, 1, n - 1);
    }
  }

  lemma OneStep(ran: Word)
    ensures Steps(ran, 0) == ran && Steps(ran, 1) == Step(ran)
  {
  }

  // The word generated at step i, when it is aimed at cell k.
  function Aimed(k: nat, size: nat, ran: Word, i: nat): Word
    requires size > 0
  {
    if Index(Steps(ran, i), size) == k then Steps(ran, i) else Zero()
  }

  // The sum of all the generated words whose index is k.
  function Contribution(k: nat, size: nat, ran: Word, n: nat): Word
    requires size > 0
  {
    if n == 0 then Zero()
    else Xor(Contribution(k, size, ran, n - 1), Aimed(k, size, ran, n - 1))
  }

  // Each cell ends as its old value plus the words aimed at it.
  lemma {:induction false} CellAfterUpdates(t: seq<Word>, ran: Word, n: nat, k: nat)
    requires k < |t|
    ensures Updates(t, ran, n)[k] == Xor(t[k], Contribution(k, |t|, ran, n))
  {
    hide Xor, Steps, Index;
    if n == 0 {
      XorZero(t[k]);
    } else {
      CellAfterUpdates(t, ran, n - 1, k);
      var before := Contribution(k, |t|, ran, n - 1);
      XorAssociates(t[k], before, Steps(ran, n - 1));
      XorZero(before);
    }
  }

  // A second pass from the same seed undoes the first.
  lemma UpdatesInvolution(t: seq<Word>, ran: Word, n: nat)
    requires n > 0 ==> |t| > 0
    ensures Updates(Updates(t, ran, n), ran, n) == t
  {
    hide Xor, Steps, Updates, Contribution;
    var once := Updates(t, ran, n);
    forall k | 0 <= k < |t|
      ensures Updates(once, ran, n)[k] == t[k]
    {
      CellAfterUpdates(t, ran, n, k);
      CellAfterUpdates(once, ran, n, k);
      var c := Contribution(k, |t|, ran, n);
      XorAssociates(t[k], c, c);
      XorZero(c);
      XorZero(t[k]);
    }
  }

  method Iteration(table: array<Word>, seed: Word) returns (dummy: seq<bool>)
    requires table.Length <= 0x8000_0000
    modifies table
    ensures table[..] == Updates(old(table[..]), seed, 4 * table.Length)
    ensures dummy == Steps(seed, 4 * table.Length).bits[..8]
  {
    hide Xor, Step, Index;
    var ran := seed;
    assert old(table[..]) == table[..];
    for idx := 0 to 4 * table.Length
      invariant ran == Steps(seed, idx)
      invariant table[..] == Updates(old(table[..]), seed, idx)
    {
      var offset: int32 := Index(ran, table.Length);
      table[offset] := Xor(table[offset], ran);
      ran := Step(ran);
    }
    return ran.bits[..8];
  }

  // Every pass starts from the same seed, so passes cancel in pairs.
  method RunKernelPasses(iterations: nat, table: array<Word>, ran: Word)
    requires table.Length <= 0x8000_0000
    modifies table
    ensures iterations % 2 == 0 ==> table[..] == old(table[..])
    ensures iterations % 2 == 1 ==> table[..] == Updates(old(table[..]), ran, 4 * table.Length)
  {
    hide Updates;
    for iter := 0 to iterations
      invariant table[..] == if iter % 2 == 0 then old(table[..])
                             else Updates(old(table[..]), ran, 4 * table.Length)
    {
      var _ := Iteration(table, ran);
      UpdatesInvolution(old(table[..]), ran, 4 * table.Length);
    }
  }

  // ---------- Splitting the stream ----------

  datatype Chunk = Chunk(start: nat, count: nat)

  // The chunks run one after the other, each from its own jump-ahead seed.
  function RunChunks(t: seq<Word>, chunks: seq<Chunk>): (u: seq<Word>)
    requires |t| > 0
    ensures |u| == |t|
    decreases |chunks|
  {
    if chunks == [] then t
    else RunChunks(Updates(t, Start(chunks[0].start), chunks[0].count), chunks[1..])
  }

  // The chunks cut the stretch of updates [from, to) into consecutive pieces.
  predicate Cuts(chunks: seq<Chunk>, from: nat, to: nat) {
    if chunks == [] then from == to
    else chunks[0].start == from && Cuts(chunks[1..], from + chunks[0].count, to)
  }

  function Share(c: Chunk, k: nat, size: nat): Word
    requires size > 0
  {
    Contribution(k, size, Start(c.start), c.count)
  }

  function Total(chunks: seq<Chunk>, k: nat, size: nat): Word
    requires size > 0
  {
    if chunks == [] then Zero() else Xor(Share(chunks[0], k, size), Total(chunks[1..], k, size))
  }

  lemma {:induction false} CellAfterChunks(t: seq<Word>, chunks: seq<Chunk>, k: nat)
    requires k < |t|
    ensures RunChunks(t, chunks)[k] == Xor(t[k], Total(chunks, k, |t|))
    decreases |chunks|
  {
    hide Xor, Updates, Contribution;
    if chunks == [] {
      XorZero(t[k]);
    } else {
      var c := chunks[0];
      CellAfterUpdates(t, Start(c.start), c.count, k);
      CellAfterChunks(Updates(t, Start(c.start), c.count), chunks[1..], k);
      XorAssociates(t[k], Share(c, k, |t|), Total(chunks[1..], k, |t|));
    }
  }

  lemma {:induction false} TotalExtract(chunks: seq<Chunk>, i: nat, k: nat, size: nat)
    requires size > 0 && i < |chunks|
    ensures Total(chunks, k, size) == Xor(Share(chunks[i], k, size), Total(Without(chunks, i), k, size))
  {
    hide Xor, Share;
    var rest := Without(chunks, i);
    if i == 0 {
      assert rest == chunks[1..];
    } else {
      TotalExtract(chunks[1..], i - 1, k, size);
      var inner := Without(chunks[1..], i - 1);
      assert rest[1..] == inner;
      var a, b, c := Share(chunks[0], k, size), Share(chunks[i], k, size), Total(inner, k, size);
      XorAssociates(a, b, c);
      XorAssociates(b, a, c);
      XorCommutes(a, b);
    }
  }

  lemma {:induction false} TotalIgnoresOrder(a: seq<Chunk>, b: seq<Chunk>, k: nat, size: nat)
    requires size > 0 && multiset(a) == multiset(b)
    ensures Total(a, k, size) == Total(b, k, size)
  {
    hide Xor, Share;
    if a == [] {
      assert |b| == |multiset(b)| == 0;
    } else {
      var i := TakeOut(a, 0, b);
      TotalExtract(b, i, k, size);
      assert Without(a, 0) == a[1..];
      TotalIgnoresOrder(a[1..], Without(b, i), k, size);
    }
  }

  lemma {:induction false} ContributionSplits(k: nat, size: nat, ran: Word, m: nat, n: nat)
    requires size > 0
    ensures Contribution(k, size, ran, m + n)
            == Xor(Contribution(k, size, ran, m), Contribution(k, size, Steps(ran, m), n))
  {
    hide Xor, Steps, Index;
    var first := Contribution(k, size, ran, m);
    if n == 0 {
      XorZero(first);
    } else {
      ContributionSplits(k, size, ran, m, n - 1);
      StepsAdd(ran, m, n - 1);
      XorAssociates(first, Contribution(k, size, Steps(ran, m), n - 1), Aimed(k, size, ran, m + n - 1));
    }
  }

  lemma {:induction false} CutTotal(chunks: seq<Chunk>, from: nat, to: nat, k: nat, size: nat)
    requires size > 0 && Cuts(chunks, from, to)
    ensures from <= to
    ensures Total(chunks, k, size) == Contribution(k, size, Steps(One(), from), to - from)
  {
    hide Xor, Steps, Aimed, Start;
    if chunks != [] {
      var c := chunks[0];
      StartIsExact(from);
      var next := from + c.count;
      CutTotal(chunks[1..], next, to, k, size);
      StepsAdd(One(), from, c.count);
      ContributionSplits(k, size, Steps(One(), from), c.count, to - next);
    }
  }

  // Chunks of one long run, each started by jumping ahead, may be run in any order.
  lemma StreamSplitting(t: seq<Word>, cut: seq<Chunk>, order: seq<Chunk>, n: nat)
    requires |t| > 0 && Cuts(cut, 0, n) && multiset(order) == multiset(cut)
    ensures RunChunks(t, order) == Updates(t, Start(0), n)
  {
    StartIs(0);
    hide Start, Xor, Steps, Contribution, Updates, RunChunks, Total;
    forall k | 0 <= k < |t|
      ensures RunChunks(t, order)[k] == Updates(t, Start(0), n)[k]
    {
      CellAfterChunks(t, order, k);
      TotalIgnoresOrder(order, cut, k, |t|);
      CutTotal(cut, 0, n, k, |t|);
      CellAfterUpdates(t, Start(0), n, k);
    }
  }
}
