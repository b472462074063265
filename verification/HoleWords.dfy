/**
  Splitting a hole with 64-bit words, as a release build does: where it departs from the ideal
  arithmetic that the rest of the heap is specified with.
 */
module HoleWords {
  import opened Alignment
  import opened HoleList
  import opened Options

  /** `align_up` on words: the mask clears the remainder. */
  function AlignUp64(addr: nat, align: nat): (r: nat)
    requires align > 0
  {
    var x := Wrap(addr + align - 1);
    x - x % align
  }

  function SplitAddr64(hole: HoleInfo, align: nat): (addr: nat)
    requires align > 0
  {
    if hole.addr == AlignUp64(hole.addr, align) then hole.addr
    else AlignUp64(Wrap(hole.addr + MIN_ALLOC_SIZE), align)
  }

  /** `split_hole` with additions, subtractions and comparisons on words. */
  function SplitHole64(hole: HoleInfo, layout: Layout): (r: Option<Allocation>)
    requires layout.align > 0
  {
    SplitAt64(hole, layout.size, SplitAddr64(hole, layout.align))
  }

  function SplitAt64(hole: HoleInfo, size: nat, addr: nat): (r: Option<Allocation>) {
    var front := if addr == hole.addr then None else Some(HoleInfo(hole.addr, Wrap(addr - hole.addr)));
    if Wrap(addr + size) > Wrap(hole.addr + hole.size) then
      None
    else
      var rest := Wrap(hole.size - (addr - hole.addr));
      if rest == size then
        Some(Allocation(HoleInfo(addr, size), front, None))
      else if Wrap(rest - size) < MIN_ALLOC_SIZE then
        None
      else
        Some(Allocation(HoleInfo(addr, size), front, Some(HoleInfo(Wrap(addr + size), Wrap(rest - size)))))
  }

  // --- Rounding up on words -----------------------------------------------------------------------

  lemma {:induction false} Pow2Divides(k: nat, n: nat)
    requires k <= n
    ensures Pow2(n) % Pow2(k) == 0
    decreases n
  {
    if k == n {
      MultipleMod(1, Pow2(k));
    } else {
      Pow2Divides(k, n - 1);
      DivModOf(Pow2(n - 1), Pow2(k));
      var q := Pow2(n - 1) / Pow2(k);
      assert Pow2(n) == 2 * (q * Pow2(k)) == (2 * q) * Pow2(k);
      MultipleMod(2 * q, Pow2(k));
    }
  }

  lemma Pow2Byte(k: nat, n: nat)
    requires n == k + 8
    ensures Pow2(n) == 256 * Pow2(k)
  {
    assert Pow2(k + 4) == 16 * Pow2(k) by {
      assert Pow2(k + 2) == 4 * Pow2(k);
    }
    assert Pow2(k + 8) == 16 * Pow2(k + 4) by {
      assert Pow2(k + 6) == 4 * Pow2(k + 4);
    }
  }

  lemma WordIsPow2(n: nat)
    requires n == 64
    ensures Pow2(n) == WORD
  {
    Pow2Byte(n - 8, n);
    Pow2Byte(n - 16, n - 8);
    Pow2Byte(n - 24, n - 16);
    Pow2Byte(n - 32, n - 24);
    Pow2Byte(n - 40, n - 32);
    Pow2Byte(n - 48, n - 40);
    Pow2Byte(n - 56, n - 48);
    Pow2Byte(n - 64, n - 56);
  }

  lemma {:induction false} Pow2Grows(k: nat, n: nat)
    requires k <= n
    ensures Pow2(k) <= Pow2(n)
    decreases n
  {
    if k < n {
      Pow2Grows(k, n - 1);
    }
  }

  lemma AlignDividesWord(align: nat)
    requires IsPow2(align) && align < WORD
    ensures WORD % align == 0
  {
    var k: nat :| align == Pow2(k);
    var n: nat := 64;
    WordIsPow2(n);
    if k > n {
      Pow2Grows(n, k);
    } else {
      Pow2Divides(k, n);
    }
  }

  /** Rounding up on words is rounding up, except that the top of the address space becomes 0. */
  lemma AlignUpWraps(addr: nat, align: nat)
    requires 0 < align < WORD && WORD % align == 0 && addr < WORD
    ensures AlignUp(addr, align) <= WORD && AlignUp64(addr, align) == Wrap(AlignUp(addr, align))
  {
    var up := AlignUp(addr, align);
    AlignUpLeast(addr, align);
    var low := addr + align - 1 - up;
    SumWraps(up, low, align);
    WrapTop(up);
    MaskedOf(Wrap(up), align, low);
  }

  lemma SumWraps(up: nat, low: nat, align: nat)
    requires 0 < align && WORD % align == 0 && up % align == 0 && up <= WORD && low < align
    ensures Wrap(up + low) == if up == WORD then low else up + low
  {
    if up < WORD {
      MultiplesApart(up, WORD, align);
    } else {
      MultiplesApart(0, WORD, align);
    }
  }

  lemma MaskedOf(multiple: nat, align: nat, low: nat)
    requires align > 0 && multiple % align == 0 && low < align
    ensures (multiple + low) - (multiple + low) % align == multiple
  {
    RemainderOf(multiple, align, low);
  }

  lemma RemainderOf(multiple: nat, align: nat, low: nat)
    requires align > 0 && multiple % align == 0 && low < align
    ensures (multiple + low) % align == low
  {
    DivModOf(multiple, align);
    DivModUnique(multiple + low, align, multiple / align, low);
  }

  lemma WrapTop(x: nat)
    requires x <= WORD
    ensures Wrap(x) == if x == WORD then 0 else x
  {
  }

  lemma SplitAddrWraps(hole: HoleInfo, align: nat)
    requires ValidHole(hole) && hole.End() < WORD && IsPow2(align) && 0 < align < WORD
    ensures SplitAddr(hole, align) <= WORD && SplitAddr64(hole, align) == Wrap(SplitAddr(hole, align))
  {
    AlignDividesWord(align);
    var up, next := AlignUp(hole.addr, align), hole.addr + MIN_ALLOC_SIZE;
    AlignUpWraps(hole.addr, align);
    WrapTop(up);
    assert AlignUp64(hole.addr, align) == hole.addr <==> up == hole.addr;
    WrapTop(next);
    AlignUpWraps(next, align);
    WrapTop(hole.addr);
  }

  // --- The exact condition --------------------------------------------------------------------------

  /** The end of the block wraps, and what it wraps to leaves a remainder of the hole that passes for a legal one. */
  predicate WrapsIntoHole(hole: HoleInfo, size: nat, addr: nat) {
    var end := addr + size - WORD;
    end >= 0 && (end == hole.End() || end + MIN_ALLOC_SIZE <= hole.End())
  }

  lemma SplitAtWraps(hole: HoleInfo, size: nat, addr: nat)
    requires ValidHole(hole) && hole.End() < WORD && hole.addr <= addr <= WORD && MIN_ALLOC_SIZE <= size < WORD / 2
    ensures SplitAt64(hole, size, Wrap(addr)) == SplitAt(hole, size, addr) <==> !WrapsIntoHole(hole, size, addr)
  {
    WrapTop(hole.End());
    if addr + size < WORD {
      SplitAtSame(hole, size, addr);
    } else {
      var end := addr + size - WORD;
      EndWraps(addr, size);
      assert SplitAt(hole, size, addr) == None;
      if end <= hole.End() {
        RestWraps(hole, size, addr, end);
      }
    }
  }

  lemma SplitAtSame(hole: HoleInfo, size: nat, addr: nat)
    requires hole.End() < WORD && hole.addr <= addr && addr + size < WORD
    ensures SplitAt64(hole, size, Wrap(addr)) == SplitAt(hole, size, addr)
  {
    WrapTop(addr);
    WrapTop(addr + size);
    WrapTop(hole.End());
    WrapTop(addr - hole.addr);
    if addr + size <= hole.End() {
      WrapTop(hole.End() - addr);
      WrapTop(hole.End() - addr - size);
    }
  }

  lemma EndWraps(addr: nat, size: nat)
    requires addr <= WORD && size < WORD && addr + size >= WORD
    ensures Wrap(Wrap(addr) + size) == addr + size - WORD
  {
    WrapTop(addr);
  }

  lemma RestWraps(hole: HoleInfo, size: nat, addr: nat, end: nat)
    requires hole.End() < WORD && hole.addr <= addr <= WORD && size < WORD / 2 && end == addr + size - WORD <= hole.End()
    ensures
      var rest := Wrap(hole.size - (Wrap(addr) - hole.addr));
      && (rest == size <==> end == hole.End()) && Wrap(rest - size) == hole.End() - end
  {
    var rest := Wrap(hole.size - (Wrap(addr) - hole.addr));
    assert rest == if addr <= hole.End() then hole.End() - addr else if addr == WORD then hole.End() else hole.End() - addr + WORD;
  }

  /**
    Over all holes and layouts, a release build splits like the ideal arithmetic unless the end
    of the block wraps into the hole.  Both families of failure are covered: blocks too large
    for the address space, and aligned addresses that lie behind the hole.
   */
  lemma SplitWrapsIff(hole: HoleInfo, layout: Layout)
    requires ValidHole(hole) && hole.End() < WORD
    requires layout.Valid() && layout.align < WORD && MIN_ALLOC_SIZE <= layout.size < WORD / 2
    ensures layout.align > 0 && (SplitHole64(hole, layout) == SplitHole(hole, layout) <==>
              !WrapsIntoHole(hole, layout.size, SplitAddr(hole, layout.align)))
  {
    var k: nat :| layout.align == Pow2(k);
    SplitAddrWraps(hole, layout.align);
    SplitAtWraps(hole, layout.size, SplitAddr(hole, layout.align));
  }

  // --- First fit --------------------------------------------------------------------------------------

  function FirstFitIndex64(holes: seq<HoleInfo>, layout: Layout): (k: nat)
    requires layout.align > 0
    ensures k <= |holes| && (k < |holes| ==> SplitHole64(holes[k], layout).Some?)
  {
    if holes == [] || SplitHole64(holes[0], layout).Some? then 0 else 1 + FirstFitIndex64(holes[1..], layout)
  }

  /** First fit with the splits of a release build. */
  function Allocated64(holes: seq<HoleInfo>, layout: Layout): (r: Option<(HoleInfo, seq<HoleInfo>)>)
    requires layout.align > 0
  {
    var k := FirstFitIndex64(holes, layout);
    if k == |holes| then None
    else
      var a := SplitHole64(holes[k], layout).value;
      Some((a.info, Substitute(holes, k, Leftovers(a))))
  }

  /** The first split that succeeds decides. */
  lemma {:induction false} FirstFitIndex64Is(holes: seq<HoleInfo>, layout: Layout, k: nat)
    requires layout.align > 0 && k <= |holes| && forall i :: 0 <= i < k ==> SplitHole64(holes[i], layout).None?
    requires k < |holes| ==> SplitHole64(holes[k], layout).Some?
    ensures FirstFitIndex64(holes, layout) == k
  {
    if k == 0 {
    } else {
      assert forall i :: 0 <= i < k - 1 ==> holes[1..][i] == holes[i + 1];
      FirstFitIndex64Is(holes[1..], layout, k - 1);
    }
  }

  /** What a wrapped split leaves behind is never the hole alone. */
  lemma WrappedLeftovers(hole: HoleInfo, layout: Layout)
    requires ValidHole(hole) && hole.End() < WORD && Fitted(layout) && layout.align < WORD && layout.size < WORD / 2
    requires layout.align > 0 && WrapsIntoHole(hole, layout.size, SplitAddr(hole, layout.align))
    ensures SplitHole64(hole, layout).Some?
    ensures
      var left := Leftovers(SplitHole64(hole, layout).value);
      left != [] && (left[0] != hole || (|left| == 2 && left[1].addr <= hole.End()))
  {
    SplitAddrWraps(hole, layout.align);
    WrappedAt(hole, layout.size, SplitAddr(hole, layout.align));
  }

  lemma WrappedAt(hole: HoleInfo, size: nat, addr: nat)
    requires ValidHole(hole) && hole.End() < WORD && hole.addr <= addr <= WORD && MIN_ALLOC_SIZE <= size < WORD / 2
    requires WrapsIntoHole(hole, size, addr)
    ensures SplitAt64(hole, size, Wrap(addr)).Some?
    ensures
      var left := Leftovers(SplitAt64(hole, size, Wrap(addr)).value);
      left != [] && (left[0] != hole || (|left| == 2 && left[1].addr <= hole.End()))
  {
    var end := addr + size - WORD;
    WrapTop(addr);
    WrapTop(hole.End());
    EndWraps(addr, size);
    RestWraps(hole, size, addr, end);
    var a := SplitAt64(hole, size, Wrap(addr)).value;
    if end == hole.End() {
      assert a.front.Some? && a.back.None?;
      assert Leftovers(a) == [a.front.value];
      FrontDiffers(hole, addr);
    } else if addr == hole.addr {
      assert Leftovers(a) == [a.back.value];
    } else {
      assert Leftovers(a) == [a.front.value, a.back.value];
    }
  }

  lemma FrontDiffers(hole: HoleInfo, addr: nat)
    requires hole.End() < WORD && 0 < hole.addr < addr <= WORD && addr != hole.End()
    ensures Wrap(Wrap(addr) - hole.addr) != hole.size
  {
    WrapTop(addr);
    assert Wrap(Wrap(addr) - hole.addr) == addr - hole.addr;
  }

  /** A list with such leftovers in place of a hole differs from one in which a later hole is split. */
  lemma SubstitutesDiffer(holes: seq<HoleInfo>, i: nat, k: nat, left: seq<HoleInfo>, left': seq<HoleInfo>)
    requires Canonical(holes) && i < k < |holes|
    requires left != [] && (left[0] != holes[i] || (|left| == 2 && left[1].addr <= holes[i].End()))
    requires forall n :: 0 <= n < |left'| ==> holes[k].addr <= left'[n].addr
    ensures Substitute(holes, i, left) != Substitute(holes, k, left')
  {
    var a, b := Substitute(holes, i, left), Substitute(holes, k, left');
    AllInOrder(holes, i);
    AllInOrder(holes, k);
    assert a[i] == left[0] && b[i] == holes[i];
    assert |left| == 2 ==> a[i + 1] == left[1];
    assert i + 1 < |b| ==> holes[i].End() < b[i + 1].addr;
  }

  lemma LeftoversWithin(hole: HoleInfo, layout: Layout)
    requires ValidHole(hole) && Fitted(layout) && SplitHole(hole, layout).Some?
    ensures forall n :: 0 <= n < |Leftovers(SplitHole(hole, layout).value)| ==> hole.addr <= Leftovers(SplitHole(hole, layout).value)[n].addr
  {
    SplitHoleTiles(hole, layout);
  }

  /** A hole before the first fit that wraps. */
  ghost predicate WrapsBeforeFit(holes: seq<HoleInfo>, layout: Layout)
    requires layout.align > 0
  {
    exists i :: 0 <= i < FirstFitIndex(holes, layout) && WrapsIntoHole(holes[i], layout.size, SplitAddr(holes[i], layout.align))
  }

  /**
    A release build allocates like the ideal arithmetic exactly if no hole before the first fit
    wraps; otherwise it returns another block or leaves another list.
   */
  lemma AllocatedWrapsIff(holes: seq<HoleInfo>, layout: Layout)
    requires Canonical(holes) && forall i :: 0 <= i < |holes| ==> holes[i].End() < WORD
    requires Fitted(layout) && layout.align < WORD && layout.size < WORD / 2
    ensures layout.align > 0 && (Allocated64(holes, layout) == Allocated(holes, layout) <==> !WrapsBeforeFit(holes, layout))
  {
    var e: nat :| layout.align == Pow2(e);
    var k := FirstFitIndex(holes, layout);
    forall i | 0 <= i < |holes|
      ensures SplitHole64(holes[i], layout) == SplitHole(holes[i], layout) <==>
              !WrapsIntoHole(holes[i], layout.size, SplitAddr(holes[i], layout.align))
    {
      SplitWrapsIff(holes[i], layout);
    }
    if WrapsBeforeFit(holes, layout) {
      var i := FirstWrap(holes, layout, k);
      WrappedLeftovers(holes[i], layout);
      FirstFitIndex64Is(holes, layout, i);
      if k < |holes| {
        LeftoversWithin(holes[k], layout);
        SubstitutesDiffer(holes, i, k, Leftovers(SplitHole64(holes[i], layout).value), Leftovers(SplitHole(holes[k], layout).value));
      }
    } else {
      if k < |holes| {
        FitDoesNotWrap(holes[k], layout);
      }
      FirstFitIndex64Is(holes, layout, k);
    }
  }

  lemma FitDoesNotWrap(hole: HoleInfo, layout: Layout)
    requires layout.align > 0 && hole.End() < WORD && SplitHole(hole, layout).Some?
    ensures !WrapsIntoHole(hole, layout.size, SplitAddr(hole, layout.align))
  {
  }

  lemma {:induction false} FirstWrap(holes: seq<HoleInfo>, layout: Layout, k: nat) returns (i: nat)
    requires layout.align > 0 && k <= |holes|
    requires exists j :: 0 <= j < k && WrapsIntoHole(holes[j], layout.size, SplitAddr(holes[j], layout.align))
    ensures i < k && WrapsIntoHole(holes[i], layout.size, SplitAddr(holes[i], layout.align))
    ensures forall j :: 0 <= j < i ==> !WrapsIntoHole(holes[j], layout.size, SplitAddr(holes[j], layout.align))
  {
    i := 0;
    while !WrapsIntoHole(holes[i], layout.size, SplitAddr(holes[i], layout.align))
      invariant i < k && forall j :: 0 <= j < i ==> !WrapsIntoHole(holes[j], layout.size, SplitAddr(holes[j], layout.align))
      decreases k - i
    {
      i := i + 1;
    }
  }

  // --- Inputs on which it departs -----------------------------------------------------------------------

  /** In the user heap a request of four tebibytes "succeeds" inside an eight-mebibyte hole. */
  lemma OversizedRequestAccepted(hole: HoleInfo, size: nat)
    requires hole == HoleInfo(0xFFFF_FE00_0000_1000, 0x80_0000) && size == 0x400_0000_0000
    ensures SplitAddr(hole, 8) == hole.addr == SplitAddr64(hole, 8)
    ensures SplitHole64(hole, Layout(size, 8)).Some? && SplitHole(hole, Layout(size, 8)).None?
  {
    assert Wrap(hole.addr + 7) == hole.addr + 7 && (hole.addr + 7) % 8 == 7;
    EndWraps(hole.addr, size);
    RestWraps(hole, size, hole.addr, hole.addr + size - WORD);
  }

  /** So does one aligned to sixteen mebibytes, whose block and front padding lie behind the hole. */
  lemma OveralignedRequestAccepted(hole: HoleInfo, size: nat, align: nat, addr: nat)
    requires hole == HoleInfo(0xFFFF_FE00_0000_1000, 0x80_0000) && size == 0x400_0000_0000
    requires align == 0x100_0000 && addr == 0xFFFF_FE00_0100_0000
    ensures SplitAddr(hole, align) == addr == SplitAddr64(hole, align) > hole.End()
    ensures
      var r := SplitHole64(hole, Layout(size, align));
      && SplitHole(hole, Layout(size, align)).None? && r.Some? && r.value.info.addr == addr
      && r.value.front.Some? && r.value.front.value.End() == addr
  {
    assert hole.addr % align == 0x1000 && (hole.addr + MIN_ALLOC_SIZE) % align == 0x1010;
    assert Wrap(hole.addr + align - 1) == hole.addr + align - 1 && (hole.addr + align - 1) % align == 0xFFF;
    assert Wrap(hole.addr + MIN_ALLOC_SIZE + align - 1) == hole.addr + MIN_ALLOC_SIZE + align - 1;
    assert (hole.addr + MIN_ALLOC_SIZE + align - 1) % align == 0x100F;
    EndWraps(addr, size);
    RestWraps(hole, size, addr, addr + size - WORD);
  }
}
