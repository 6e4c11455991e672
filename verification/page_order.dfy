// Page orders: two algorithms for the least power of two that covers a page count.
module PageOrder {
  import opened Words

  const PAGE_SIZE: nat := 4096

  // 2^k pages cover n pages, and half as many do not.
  predicate IsLeastOrder(k: nat, n: nat) {
    Pow2(k) >= n && (k > 0 ==> Pow2(k - 1) < n)
  }

  lemma LeastOrderUnique(j: nat, k: nat, n: nat)
    requires IsLeastOrder(j, n) && IsLeastOrder(k, n)
    ensures j == k
  {
    if j < k {
      Pow2Monotone(j, k - 1);
    } else if k < j {
      Pow2Monotone(k, j - 1);
    }
  }

  // ---------- The shifting algorithm ----------

  // The number of shifts that empty n.
  function BitLength(n: nat): nat {
    if n == 0 then 0 else 1 + BitLength(n / 2)
  }

  lemma {:induction false} BitLengthBounds(n: nat)
    ensures n < Pow2(BitLength(n))
    ensures n > 0 ==> Pow2(BitLength(n) - 1) <= n
  {
    if n > 0 {
      BitLengthBounds(n / 2);
    }
  }

  lemma {:induction false} Pow2IsPower(n: nat)
    requires IsPow2(n)
    ensures BitLength(n) > 0 && Pow2(BitLength(n) - 1) == n
  {
    if n > 1 {
      Pow2IsPower(n / 2);
    }
  }

  lemma {:induction false} PowerIsPow2(k: nat)
    ensures IsPow2(Pow2(k))
  {
    if k > 0 {
      PowerIsPow2(k - 1);
    }
  }

  // The decrement for powers of two is what makes the shift count the least order.
  lemma ShiftCountIsLeast(n: nat)
    requires n > 0
    ensures IsLeastOrder(BitLength(if IsPow2(n) then n - 1 else n), n)
  {
    BitLengthBounds(n);
    var k := BitLength(n) - 1;
    if IsPow2(n) {
      Pow2IsPower(n);
      BitLengthBounds(n - 1);
      if n > 1 {
        BitLengthUnique(n, BitLength(n - 1), k);
      }
    } else {
      PowerIsPow2(k);
    }
  }

  lemma BitLengthUnique(n: nat, j: nat, k: nat)
    requires n > 1 && n == Pow2(k) && n - 1 < Pow2(j) && j > 0 && Pow2(j - 1) <= n - 1
    ensures j == k
  {
    if j < k {
      Pow2Monotone(j, k - 1);
    } else if k < j {
      Pow2Monotone(k, j - 1);
    }
  }

  method MyGetOrder(nrPages: uint32) returns (shifts: nat)
    ensures IsLeastOrder(shifts, nrPages)
  {
    var n: uint32 := nrPages;
    shifts := 0;
    if n == 0 {
      return;
    }
    SingleBit(n);
    if And(n, n - 1) == 0 {
      n := n - 1;
    }
    ghost var m := n;
    while n > 0
      invariant shifts + BitLength(n) == BitLength(m)
    {
      n := n / 2;
      shifts := shifts + 1;
    }
    ShiftCountIsLeast(nrPages);
  }

  // ---------- The doubling algorithm ----------

  // The length of a mapped area, cut to 32 bits as the module does.
  function AreaLength(vmStart: nat, vmEnd: nat): nat {
    (vmEnd - vmStart) % 0x1_0000_0000
  }

  function PageCount(length: nat): nat {
    if length % PAGE_SIZE != 0 then length / PAGE_SIZE + 1 else length / PAGE_SIZE
  }

  // The loop that both the allocation and the release of a pre-paged area run.
  method AreaOrder(vmStart: nat, vmEnd: nat) returns (order: nat)
    ensures IsLeastOrder(order, PageCount(AreaLength(vmStart, vmEnd)))
    ensures vmStart <= vmEnd ==> CoversArea(order, vmEnd - vmStart)
  {
    var length: uint32 := (vmEnd - vmStart) % 0x1_0000_0000;
    var pageNum: uint32 := if length % PAGE_SIZE != 0 then length / PAGE_SIZE + 1 else length / PAGE_SIZE;
    order := 0;
    Pow2Values();
    while Pow2(order) < pageNum
      invariant order > 0 ==> Pow2(order - 1) < pageNum
      decreases pageNum - Pow2(order)
    {
      OrderBelow(order, pageNum);
      order := order + 1;
      // The shifted value stays a positive int.
      var block: int32 := Pow2(order);
      assert block > 0;
    }
    if vmStart <= vmEnd {
      BlockCoversArea(order, vmStart, vmEnd);
    }
  }

  // The block covers an area of less than 2^32 bytes, which half of it does not; for any longer area
  // the length has been cut, and the block is too small.
  predicate CoversArea(order: nat, length: nat) {
    && (Pow2(order) * PAGE_SIZE >= length <==> length < 0x1_0000_0000)
    && (length < 0x1_0000_0000 && order > 0 ==> Pow2(order - 1) * PAGE_SIZE < length)
  }

  lemma BlockCoversArea(order: nat, vmStart: nat, vmEnd: nat)
    requires vmStart <= vmEnd && IsLeastOrder(order, PageCount(AreaLength(vmStart, vmEnd)))
    ensures CoversArea(order, vmEnd - vmStart)
  {
    var length := AreaLength(vmStart, vmEnd);
    BlockCoversLength(order, length);
    hide Pow2;
    if vmEnd - vmStart >= 0x1_0000_0000 {
      TwentiethPower();
      if order > 20 {
        Pow2Monotone(20, order - 1);
      } else {
        Pow2Monotone(order, 20);
      }
    }
  }

  lemma TwentiethPower()
    ensures Pow2(20) == 0x10_0000
  {
    Pow2Values();
    Pow2Add(16, 4);
    assert Pow2(4) == 16;
  }

  lemma OrderBelow(order: nat, pageNum: nat)
    requires Pow2(order) < pageNum <= 0x10_0000
    ensures Pow2(order + 1) < 0x8000_0000
  {
  }

  // The block covers the requested length, and the next smaller block would not.
  lemma BlockCoversLength(order: nat, length: nat)
    requires IsLeastOrder(order, PageCount(length))
    ensures Pow2(order) * PAGE_SIZE >= length
    ensures order > 0 ==> Pow2(order - 1) * PAGE_SIZE < length
  {
  }

  // The shifting and the doubling algorithm agree, and so do allocation and release of an
  // unchanged area: whatever finds a least order for the same length finds the same block.
  lemma OrdersAgree(taken: nat, released: nat, length: nat)
    requires IsLeastOrder(taken, PageCount(length)) && IsLeastOrder(released, PageCount(length))
    ensures taken == released
    ensures Pow2(taken) * PAGE_SIZE >= length
  {
    LeastOrderUnique(taken, released, PageCount(length));
    BlockCoversLength(taken, length);
  }
}
