// The kernel thread that fills pages with structs and verifies them later.
module KernelMemory {
  import opened Words
  import opened Wrappers
  import opened PageOrder

  const STRUCT_SIZE: nat := 32
  const ARR_SIZE: nat := 8
  const WORDS_PER_PAGE: nat := 1024

  // ---------- Page counting ----------

  function NrPages(nrStructs: nat): nat {
    var full := nrStructs * STRUCT_SIZE / PAGE_SIZE;
    full + (if full == 0 then 0 else 1)
  }

  // The page count is zero, and the division by it undefined, exactly below one page of structs.
  lemma NoPagesExactlyWhenSmall(nrStructs: nat)
    ensures NrPages(nrStructs) == 0 <==> nrStructs < 128
  {
  }

  // Otherwise the pages are enough for the bytes, and one page less would hold no more than them.
  lemma PagesCoverBytes(nrStructs: nat)
    requires nrStructs >= 128
    ensures (NrPages(nrStructs) - 1) * PAGE_SIZE <= nrStructs * STRUCT_SIZE < NrPages(nrStructs) * PAGE_SIZE
  {
  }

  function StructsPerPage(nrStructs: nat): nat
    requires nrStructs >= 128
  {
    nrStructs / NrPages(nrStructs)
  }

  // Every struct stays inside its page, no more structs are placed than were asked for, and one more
  // on each page would be too many.
  lemma StructsFit(nrStructs: nat)
    requires nrStructs >= 128
    ensures var pages, per := NrPages(nrStructs), StructsPerPage(nrStructs);
            0 < per < 128 && per * STRUCT_SIZE <= PAGE_SIZE && pages * per <= nrStructs < pages * (per + 1)
  {
    var pages := NrPages(nrStructs);
    var per := nrStructs / pages;
    assert nrStructs < 128 * pages;
    assert nrStructs == pages * per + nrStructs % pages;
    if per >= 128 {
      ScaleOrder(pages, 128, per);
    }
    assert pages <= nrStructs;
    assert pages * (per + 1) == pages * per + pages;
  }

  // ---------- Words and values ----------

  // The word of element k of struct j of page i, counted from the start of the block.
  function WordAt(i: nat, j: nat, k: nat): nat {
    i * WORDS_PER_PAGE + j * ARR_SIZE + k
  }

  function ValueAt(per: nat, i: nat, j: nat, k: nat): nat {
    i * per * 8 + j * 8 + k
  }

  // An element lies in its page at the offset of its struct and its own.
  lemma WordAddress(i: nat, j: nat, k: nat)
    ensures 4 * WordAt(i, j, k) == i * PAGE_SIZE + (j * STRUCT_SIZE + 4 * k)
    ensures j < 128 && k < ARR_SIZE ==> 4 * WordAt(i, j, k) / PAGE_SIZE == i
  {
    if j < 128 && k < ARR_SIZE {
      QuotientUnique(4 * WordAt(i, j, k), PAGE_SIZE, i, j * STRUCT_SIZE + 4 * k);
    }
  }

  // The values count up from zero in the order of the loops.
  lemma ValuesCountUp(per: nat, i: nat, j: nat, k: nat)
    ensures ValueAt(per, 0, 0, 0) == 0
    ensures ValueAt(per, i, j, k + 1) == ValueAt(per, i, j, k) + 1
    ensures ValueAt(per, i, j + 1, 0) == ValueAt(per, i, j, ARR_SIZE - 1) + 1
    ensures per > 0 ==> ValueAt(per, i + 1, 0, 0) == ValueAt(per, i, per - 1, ARR_SIZE - 1) + 1
  {
    assert (i + 1) * per * 8 == i * per * 8 + per * 8 by {
      assert (i + 1) * per == i * per + per;
    }
  }

  predicate InRange(pages: nat, per: nat, i: nat, j: nat, k: nat) {
    i < pages && j < per && k < ARR_SIZE
  }

  // Different elements have different words and different values.
  lemma ElementsDistinct(pages: nat, per: nat, i: nat, j: nat, k: nat, i': nat, j': nat, k': nat)
    requires per < 128 && InRange(pages, per, i, j, k) && InRange(pages, per, i', j', k')
    requires (i, j, k) != (i', j', k')
    ensures WordAt(i, j, k) != WordAt(i', j', k')
    ensures ValueAt(per, i, j, k) != ValueAt(per, i', j', k')
  {
    if i < i' {
      PageOffset(per, i, i');
    } else if i' < i {
      PageOffset(per, i', i);
    }
  }

  lemma PageOffset(per: nat, i: nat, i': nat)
    requires i < i'
    ensures i * per * 8 + per * 8 <= i' * per * 8
  {
    ScaleOrder(per, i + 1, i');
    assert per * (i + 1) == i * per + per;
  }

  // Every value fits an unsigned int, so the unsigned arithmetic is exact.
  lemma ValuesFit(nrStructs: nat, i: nat, j: nat, k: nat)
    requires nrStructs >= 128 && nrStructs * STRUCT_SIZE < 0x1_0000_0000
    requires InRange(NrPages(nrStructs), StructsPerPage(nrStructs), i, j, k)
    ensures ValueAt(StructsPerPage(nrStructs), i, j, k) < 8 * nrStructs < 0x1_0000_0000
  {
    StructsFit(nrStructs);
    PageOffset(StructsPerPage(nrStructs), i, NrPages(nrStructs));
  }

  // ---------- Fill and verify ----------

  // The block has room for the pages.
  predicate Fits(size: nat, pages: nat, per: nat) {
    pages * WORDS_PER_PAGE <= size && per < 128
  }

  predicate Holds(mem: seq<uint32>, per: nat, i: nat, j: nat, k: nat) {
    WordAt(i, j, k) < |mem| && mem[WordAt(i, j, k)] == ValueAt(per, i, j, k)
  }

  // All elements before element k of struct j of page i, in the order of the loops.
  predicate Before(i': nat, j': nat, k': nat, i: nat, j: nat, k: nat) {
    i' < i || (i' == i && (j' < j || (j' == j && k' < k)))
  }

  ghost predicate FilledUpTo(mem: seq<uint32>, pages: nat, per: nat, i: nat, j: nat, k: nat) {
    forall i': nat, j': nat, k': nat | InRange(pages, per, i', j', k') ::
      Before(i', j', k', i, j, k) ==> Holds(mem, per, i', j', k')
  }

  lemma FillNext(mem: seq<uint32>, pages: nat, per: nat, i: nat, j: nat, k: nat, value: uint32)
    requires Fits(|mem|, pages, per) && InRange(pages, per, i, j, k)
    requires FilledUpTo(mem, pages, per, i, j, k) && value == ValueAt(per, i, j, k)
    ensures WordAt(i, j, k) < |mem|
    ensures FilledUpTo(mem[WordAt(i, j, k) := value], pages, per, i, j, k + 1)
  {
    hide ValueAt;
    var after := mem[WordAt(i, j, k) := value];
    forall i': nat, j': nat, k': nat | InRange(pages, per, i', j', k') && Before(i', j', k', i, j, k + 1)
      ensures Holds(after, per, i', j', k')
    {
      if (i', j', k') != (i, j, k) {
        assert Before(i', j', k', i, j, k);
        assert Holds(mem, per, i', j', k');
        ElementsDistinct(pages, per, i, j, k, i', j', k');
      }
    }
  }

  // Nothing outside the elements has changed.
  ghost predicate OnlyElements(before: seq<uint32>, after: seq<uint32>, pages: nat, per: nat) {
    && |after| == |before|
    && forall w :: 0 <= w < |before| && after[w] != before[w] ==> IsElement(pages, per, w)
  }

  ghost predicate IsElement(pages: nat, per: nat, w: nat) {
    exists i: nat, j: nat, k: nat :: InRange(pages, per, i, j, k) && WordAt(i, j, k) == w
  }

  lemma NothingChanged(mem: seq<uint32>, pages: nat, per: nat)
    ensures OnlyElements(mem, mem, pages, per)
  {
  }

  lemma ElementChanged(before: seq<uint32>, now: seq<uint32>, pages: nat, per: nat, i: nat, j: nat, k: nat,
                       value: uint32)
    requires OnlyElements(before, now, pages, per) && InRange(pages, per, i, j, k) && WordAt(i, j, k) < |now|
    ensures OnlyElements(before, now[WordAt(i, j, k) := value], pages, per)
  {
    assert IsElement(pages, per, WordAt(i, j, k));
  }

  method Fill(mem: array<uint32>, pages: nat, per: nat)
    requires Fits(mem.Length, pages, per)
    requires forall i, j, k | InRange(pages, per, i, j, k) :: ValueAt(per, i, j, k) < 0x1_0000_0000
    modifies mem
    ensures FilledUpTo(mem[..], pages, per, pages, 0, 0)
    ensures OnlyElements(old(mem[..]), mem[..], pages, per)
  {
    hide ValueAt, Holds, WordAt, OnlyElements;
    NothingChanged(mem[..], pages, per);
    for i := 0 to pages
      invariant FilledUpTo(mem[..], pages, per, i, 0, 0)
      invariant OnlyElements(old(mem[..]), mem[..], pages, per)
    {
      for j := 0 to per
        invariant FilledUpTo(mem[..], pages, per, i, j, 0)
        invariant OnlyElements(old(mem[..]), mem[..], pages, per)
      {
        for k := 0 to ARR_SIZE
          invariant FilledUpTo(mem[..], pages, per, i, j, k)
          invariant OnlyElements(old(mem[..]), mem[..], pages, per)
        {
          assert InRange(pages, per, i, j, k);
          var value: uint32 := ValueAt(per, i, j, k);
          FillNext(mem[..], pages, per, i, j, k, value);
          ElementChanged(old(mem[..]), mem[..], pages, per, i, j, k, value);
          mem[WordAt(i, j, k)] := value;
        }
        assert forall i': nat, j': nat, k': nat | InRange(pages, per, i', j', k') ::
            Before(i', j', k', i, j + 1, 0) ==> Before(i', j', k', i, j, ARR_SIZE);
      }
    }
  }

  // The elements before element k of struct j of page i that do not hold their value.
  function Mismatched(mem: seq<uint32>, pages: nat, per: nat, i: nat, j: nat, k: nat): set<(nat, nat, nat)> {
    set i': nat, j': nat, k': nat
      | i' < pages && j' < per && k' < ARR_SIZE && Before(i', j', k', i, j, k) && !Holds(mem, per, i', j', k')
      :: (i', j', k')
  }

  lemma NoneMismatched(mem: seq<uint32>, pages: nat, per: nat, i: nat, j: nat, k: nat)
    ensures Mismatched(mem, pages, per, i, j, k) == {} <==> FilledUpTo(mem, pages, per, i, j, k)
  {
    hide Holds, Before;
    var wrong := Mismatched(mem, pages, per, i, j, k);
    if i': nat, j': nat, k': nat :| InRange(pages, per, i', j', k') && Before(i', j', k', i, j, k)
                                    && !Holds(mem, per, i', j', k') {
      assert (i', j', k') in wrong;
    }
  }

  // The verify pass counts the elements that do not hold their value.
  method Verify(mem: array<uint32>, pages: nat, per: nat) returns (mismatches: nat)
    requires Fits(mem.Length, pages, per)
    ensures mismatches == |Mismatched(mem[..], pages, per, pages, 0, 0)|
    ensures mismatches == 0 <==> FilledUpTo(mem[..], pages, per, pages, 0, 0)
  {
    hide ValueAt, WordAt, Mismatched, FilledUpTo;
    mismatches := 0;
    NothingBefore(mem[..], pages, per);
    for i := 0 to pages
      invariant mismatches == |Mismatched(mem[..], pages, per, i, 0, 0)|
    {
      for j := 0 to per
        invariant mismatches == |Mismatched(mem[..], pages, per, i, j, 0)|
      {
        for k := 0 to ARR_SIZE
          invariant mismatches == |Mismatched(mem[..], pages, per, i, j, k)|
        {
          WordInBlock(mem.Length, pages, per, i, j, k);
          CheckNext(mem[..], pages, per, i, j, k);
          if mem[WordAt(i, j, k)] != ValueAt(per, i, j, k) {
            mismatches := mismatches + 1;
          }
        }
        RowDone(mem[..], pages, per, i, j);
      }
      PageDone(mem[..], pages, per, i);
    }
    NoneMismatched(mem[..], pages, per, pages, 0, 0);
  }

  lemma NothingBefore(mem: seq<uint32>, pages: nat, per: nat)
    ensures Mismatched(mem, pages, per, 0, 0, 0) == {}
  {
  }

  lemma WordInBlock(size: nat, pages: nat, per: nat, i: nat, j: nat, k: nat)
    requires Fits(size, pages, per) && InRange(pages, per, i, j, k)
    ensures WordAt(i, j, k) < size
  {
  }

  lemma CheckNext(mem: seq<uint32>, pages: nat, per: nat, i: nat, j: nat, k: nat)
    requires InRange(pages, per, i, j, k)
    ensures |Mismatched(mem, pages, per, i, j, k + 1)|
            == |Mismatched(mem, pages, per, i, j, k)| + (if Holds(mem, per, i, j, k) then 0 else 1)
  {
    hide Holds;
    var before, after := Mismatched(mem, pages, per, i, j, k), Mismatched(mem, pages, per, i, j, k + 1);
    assert after == if Holds(mem, per, i, j, k) then before else before + {(i, j, k)};
    assert (i, j, k) !in before;
  }

  lemma RowDone(mem: seq<uint32>, pages: nat, per: nat, i: nat, j: nat)
    ensures Mismatched(mem, pages, per, i, j, ARR_SIZE) == Mismatched(mem, pages, per, i, j + 1, 0)
  {
    hide Holds;
  }

  lemma PageDone(mem: seq<uint32>, pages: nat, per: nat, i: nat)
    ensures Mismatched(mem, pages, per, i, per, 0) == Mismatched(mem, pages, per, i + 1, 0, 0)
  {
    hide Holds;
  }

  // The thread: None when the allocation fails, otherwise the mismatches the verify pass reports. The
  // block is the least power of two of pages, and every element in it holds its value.
  method ThreadFn(nrStructs: uint32, available: bool) returns (r: Option<nat>, order: nat, mem: array<uint32>)
    requires nrStructs >= 128 && nrStructs * STRUCT_SIZE < 0x1_0000_0000
    ensures r == if available then Some(0) else None
    ensures IsLeastOrder(order, NrPages(nrStructs))
    ensures mem.Length == if available then Pow2(order) * WORDS_PER_PAGE else 0
    ensures available ==>
              FilledUpTo(mem[..], NrPages(nrStructs), StructsPerPage(nrStructs), NrPages(nrStructs), 0, 0)
  {
    var bytes: uint32 := nrStructs * STRUCT_SIZE;
    var tail := if bytes / PAGE_SIZE == 0 then 0 else 1;
    var nrPages: uint32 := bytes / PAGE_SIZE + tail;
    order := MyGetOrder(nrPages);
    var per := nrStructs / nrPages;
    if !available {
      mem := new uint32[0];
      return None, order, mem;
    }
    StructsFit(nrStructs);
    mem := new uint32[Pow2(order) * WORDS_PER_PAGE];
    forall i, j, k | InRange(nrPages, per, i, j, k)
      ensures ValueAt(per, i, j, k) < 0x1_0000_0000
    {
      ValuesFit(nrStructs, i, j, k);
    }
    Fill(mem, nrPages, per);
    var mismatches := Verify(mem, nrPages, per);
    return Some(mismatches), order, mem;
  }
}
