/**
  The value level of the linked-list first-fit heap: holes as intervals, the splitting of one
  hole, the list after an allocation, and the list after a release.  The class in `Heap`
  keeps such a list in raw memory.
 */
module HoleList {
  import opened Alignment
  import opened Options

  datatype HoleInfo = HoleInfo(addr: nat, size: nat) {
    function End(): (e: nat) { addr + size }
    predicate Has(b: int) { addr <= b < End() }
  }

  datatype Layout = Layout(size: nat, align: nat) {
    ghost predicate Valid() { IsPow2(align) }
  }

  datatype Allocation = Allocation(info: HoleInfo, front: Option<HoleInfo>, back: Option<HoleInfo>)

  const HOLE_ALIGN: nat := 8
  const MIN_ALLOC_SIZE: nat := 16

  /** The least size of a block that holds `size` bytes: whole words, and room for a node when it is freed. */
  ghost predicate BlockSize(n: nat, size: nat) {
    && n % 8 == 0 && 16 <= n && size <= n
    && forall m: nat {:trigger m % 8} :: m % 8 == 0 && 16 <= m && size <= m ==> n <= m
  }

  function AlignLayout(layout: Layout): (r: Layout)
    ensures r.align == layout.align && BlockSize(r.size, layout.size)
  {
    var size := if layout.size < MIN_ALLOC_SIZE then MIN_ALLOC_SIZE else layout.size;
    Layout(AlignUp(size, HOLE_ALIGN), layout.align)
  }

  /** Where a block goes in a hole: at its start if aligned, otherwise behind a front hole. */
  function SplitAddr(hole: HoleInfo, align: nat): (addr: nat)
    requires align > 0
    ensures hole.addr <= addr
  {
    if hole.addr == AlignUp(hole.addr, align) then hole.addr
    else AlignUp(hole.addr + MIN_ALLOC_SIZE, align)
  }

  function SplitHole(hole: HoleInfo, layout: Layout): (r: Option<Allocation>)
    requires layout.align > 0
  {
    SplitAt(hole, layout.size, SplitAddr(hole, layout.align))
  }

  function SplitAt(hole: HoleInfo, size: nat, addr: nat): (r: Option<Allocation>)
    requires hole.addr <= addr
  {
    var front := if addr == hole.addr then None else Some(HoleInfo(hole.addr, addr - hole.addr));
    if addr + size > hole.addr + hole.size then
      None
    else
      var rest := hole.size - (addr - hole.addr);
      if rest == size then
        Some(Allocation(HoleInfo(addr, size), front, None))
      else if rest - size < MIN_ALLOC_SIZE then
        None
      else
        Some(Allocation(HoleInfo(addr, size), front, Some(HoleInfo(addr + size, rest - size))))
  }

  // --- Reference definitions ---------------------------------------------------------------

  /** The hole leaves room for a block at `p` whose leftovers are empty or can hold a node. */
  predicate FitsAt(hole: HoleInfo, layout: Layout, p: nat)
    requires layout.align > 0
  {
    && p % layout.align == 0
    && hole.addr <= p && p + layout.size <= hole.End()
    && (p == hole.addr || hole.addr + MIN_ALLOC_SIZE <= p)
    && (p + layout.size == hole.End() || p + layout.size + MIN_ALLOC_SIZE <= hole.End())
  }

  /** Sorted, never adjacent, node-aligned, and large enough to hold a node. */
  ghost predicate Canonical(holes: seq<HoleInfo>) {
    && (forall i :: 0 <= i < |holes| ==> ValidHole(holes[i]))
    && (forall i, j {:trigger Before(holes[i], holes[j])} :: 0 <= i < j < |holes| ==> Before(holes[i], holes[j]))
  }

  predicate Before(h: HoleInfo, g: HoleInfo) { h.End() < g.addr }

  lemma InOrder(s: seq<HoleInfo>, i: int, j: int)
    requires Canonical(s) && 0 <= i < j < |s|
    ensures s[i].End() < s[j].addr
  {
    assert Before(s[i], s[j]);
  }

  lemma AllInOrder(s: seq<HoleInfo>, k: int)
    requires Canonical(s) && 0 <= k < |s|
    ensures forall i :: 0 <= i < k ==> s[i].End() < s[k].addr
    ensures forall i :: k < i < |s| ==> s[k].End() < s[i].addr
  {
    assert forall i :: 0 <= i < k ==> Before(s[i], s[k]);
    assert forall i :: k < i < |s| ==> Before(s[k], s[i]);
  }

  predicate ValidHole(h: HoleInfo) {
    0 < h.addr && h.addr % HOLE_ALIGN == 0 && MIN_ALLOC_SIZE <= h.size
  }

  ghost predicate Covers(s: seq<HoleInfo>, b: int) {
    exists i :: 0 <= i < |s| && s[i].Has(b)
  }

  ghost predicate SameBytes(s: seq<HoleInfo>, t: seq<HoleInfo>) {
    forall b: int :: Covers(s, b) <==> Covers(t, b)
  }

  function Total(s: seq<HoleInfo>): (n: nat) {
    if s == [] then 0 else s[0].size + Total(s[1..])
  }

  lemma {:induction false} TotalAppend(s: seq<HoleInfo>, t: seq<HoleInfo>)
    ensures Total(s + t) == Total(s) + Total(t)
  {
    if s == [] {
      assert s + t == t;
    } else {
      assert (s + t)[1..] == s[1..] + t;
      TotalAppend(s[1..], t);
    }
  }

  // --- A canonical list is determined by the bytes it covers ---------------------------------

  lemma {:induction false} CanonicalUnique(s: seq<HoleInfo>, t: seq<HoleInfo>)
    requires Canonical(s) && Canonical(t) && SameBytes(s, t)
    ensures s == t
  {
    if s == [] || t == [] {
      if s != [] {
        assert s[0].Has(s[0].addr) && Covers(s, s[0].addr);
      } else if t != [] {
        assert t[0].Has(t[0].addr) && Covers(t, t[0].addr);
      }
    } else {
      FirstNotBelow(s, t);
      FirstNotBelow(t, s);
      FirstEndNotAbove(s, t);
      FirstEndNotAbove(t, s);
      assert s[0] == t[0];
      forall b: int ensures Covers(s[1..], b) <==> Covers(t[1..], b) {
        CoversTail(s, b);
        CoversTail(t, b);
        assert Covers(s, b) <==> Covers(t, b);
      }
      CanonicalUnique(s[1..], t[1..]);
      assert s == [s[0]] + s[1..] && t == [t[0]] + t[1..];
    }
  }

  lemma FirstNotBelow(s: seq<HoleInfo>, t: seq<HoleInfo>)
    requires Canonical(s) && Canonical(t) && SameBytes(s, t) && s != [] && t != []
    ensures s[0].addr <= t[0].addr
  {
    assert t[0].Has(t[0].addr) && Covers(t, t[0].addr);
    assert Covers(s, t[0].addr);
    AllInOrder(s, 0);
  }

  lemma FirstEndNotAbove(s: seq<HoleInfo>, t: seq<HoleInfo>)
    requires Canonical(s) && Canonical(t) && SameBytes(s, t) && s != [] && t != []
    requires s[0].addr == t[0].addr
    ensures s[0].End() <= t[0].End()
  {
    AllInOrder(t, 0);
    var b := t[0].End();
    assert !Covers(t, b);
    assert s[0].Has(b) ==> Covers(s, b);
  }

  lemma CoversTail(s: seq<HoleInfo>, b: int)
    requires Canonical(s) && s != []
    ensures Covers(s[1..], b) <==> Covers(s, b) && !s[0].Has(b)
  {
    AllInOrder(s, 0);
    if Covers(s[1..], b) {
      var i :| 0 <= i < |s| - 1 && s[1..][i].Has(b);
      assert s[i + 1].Has(b);
    }
    if Covers(s, b) && !s[0].Has(b) {
      var i :| 0 <= i < |s| && s[i].Has(b);
      assert s[1..][i - 1].Has(b);
    }
  }

  // --- Splitting one hole --------------------------------------------------------------------

  function Opt(h: Option<HoleInfo>): (s: seq<HoleInfo>) {
    match h case None => [] case Some(v) => [v]
  }

  /** The holes that replace the split one. */
  function Leftovers(a: Allocation): (s: seq<HoleInfo>) {
    Opt(a.front) + Opt(a.back)
  }

  /** A block size and alignment that has gone through `AlignLayout`. */
  ghost predicate Fitted(layout: Layout) {
    layout.Valid() && MIN_ALLOC_SIZE <= layout.size && layout.size % HOLE_ALIGN == 0
  }

  lemma SplitAddrAligned(hole: HoleInfo, align: nat)
    requires ValidHole(hole) && (align == 1 || align == 2 || align == 4 || (align >= 8 && align % 8 == 0))
    ensures SplitAddr(hole, align) % align == 0 && SplitAddr(hole, align) % HOLE_ALIGN == 0
    ensures align <= 8 ==> SplitAddr(hole, align) == hole.addr
  {
    AlignUpLeast(hole.addr, align);
    if align <= 8 {
      assert hole.addr % 1 == 0 && hole.addr % 2 == 0 && hole.addr % 4 == 0;
    } else {
      AlignUpLeast(hole.addr + MIN_ALLOC_SIZE, align);
      MultipleTrans(SplitAddr(hole, align), align, 8);
    }
  }

  lemma SplitAddrProps(hole: HoleInfo, align: nat)
    requires ValidHole(hole) && IsPow2(align)
    ensures
      var addr := SplitAddr(hole, align);
      && addr % align == 0 && addr % HOLE_ALIGN == 0
      && (addr == hole.addr || (hole.addr + MIN_ALLOC_SIZE <= addr && 8 < align)) && (align <= 8 || 16 <= align)
      && (forall p: nat :: p % align == 0 && (p == hole.addr || hole.addr + MIN_ALLOC_SIZE <= p) ==> addr <= p)
  {
    Pow2Eight(align);
    AlignUpLeast(hole.addr, align);
    AlignUpLeast(hole.addr + MIN_ALLOC_SIZE, align);
    SplitAddrAligned(hole, align);
  }

  /** Front, block and back follow each other exactly through the hole. */
  ghost predicate Tiles(a: Allocation, hole: HoleInfo) {
    && (if a.front.None? then a.info.addr == hole.addr
        else a.front.value.addr == hole.addr && a.front.value.End() == a.info.addr)
    && (if a.back.None? then a.info.End() == hole.End()
        else a.back.value.addr == a.info.End() && a.back.value.End() == hole.End())
  }

  lemma SplitAtTiles(hole: HoleInfo, size: nat, addr: nat)
    requires ValidHole(hole) && MIN_ALLOC_SIZE <= size && size % HOLE_ALIGN == 0
    requires addr == hole.addr || hole.addr + MIN_ALLOC_SIZE <= addr
    requires addr % HOLE_ALIGN == 0
    requires SplitAt(hole, size, addr).Some?
    ensures
      var a := SplitAt(hole, size, addr).value;
      && a.info == HoleInfo(addr, size) && Tiles(a, hole) && Canonical(Leftovers(a)) && ValidHole(a.info)
      && (a.back.Some? ==> MIN_ALLOC_SIZE <= a.back.value.size)
  {
  }

  /** A successful split tiles the hole, and all three parts are aligned and large enough. */
  lemma SplitHoleTiles(hole: HoleInfo, layout: Layout)
    requires ValidHole(hole) && Fitted(layout)
    requires SplitHole(hole, layout).Some?
    ensures
      var a := SplitHole(hole, layout).value;
      && FitsAt(hole, layout, a.info.addr) && a.info.size == layout.size && ValidHole(a.info)
      && Tiles(a, hole) && Canonical(Leftovers(a))
  {
    SplitAddrProps(hole, layout.align);
    SplitAtTiles(hole, layout.size, SplitAddr(hole, layout.align));
  }

  /** `SplitHole` finds the lowest legal place, and fails only if there is none. */
  lemma SplitHoleComplete(hole: HoleInfo, layout: Layout, p: nat)
    requires ValidHole(hole) && Fitted(layout)
    requires FitsAt(hole, layout, p)
    ensures SplitHole(hole, layout).Some?
    ensures SplitHole(hole, layout).value.info.addr <= p
  {
    SplitAddrProps(hole, layout.align);
    SplitAtComplete(hole, layout, p, SplitAddr(hole, layout.align));
  }

  lemma SplitAtComplete(hole: HoleInfo, layout: Layout, p: nat, addr: nat)
    requires layout.align > 0 && FitsAt(hole, layout, p)
    requires addr % layout.align == 0 && hole.addr <= addr <= p
    requires addr == hole.addr || 8 < layout.align
    requires layout.align <= 8 || layout.align >= 16
    ensures SplitAt(hole, layout.size, addr).Some?
    ensures SplitAt(hole, layout.size, addr).value.info.addr <= p
  {
    if addr < p {
      MultiplesApart(addr, p, layout.align);
    }
  }

  // --- The list after an allocation ------------------------------------------------------------

  function FirstFitIndex(holes: seq<HoleInfo>, layout: Layout): (k: nat)
    requires layout.align > 0
    ensures k <= |holes|
    ensures forall i :: 0 <= i < k ==> SplitHole(holes[i], layout).None?
    ensures k < |holes| ==> SplitHole(holes[k], layout).Some?
  {
    if holes == [] || SplitHole(holes[0], layout).Some? then 0
    else 1 + FirstFitIndex(holes[1..], layout)
  }

  function Substitute(holes: seq<HoleInfo>, k: nat, s: seq<HoleInfo>): (r: seq<HoleInfo>)
    requires k < |holes|
  {
    holes[..k] + s + holes[k + 1..]
  }

  function Allocated(holes: seq<HoleInfo>, layout: Layout): (r: Option<(HoleInfo, seq<HoleInfo>)>)
    requires layout.align > 0
  {
    var k := FirstFitIndex(holes, layout);
    if k == |holes| then None
    else
      var a := SplitHole(holes[k], layout).value;
      Some((a.info, Substitute(holes, k, Leftovers(a))))
  }

  ghost predicate LegalAt(holes: seq<HoleInfo>, layout: Layout, p: nat)
    requires layout.align > 0
  {
    exists i :: 0 <= i < |holes| && FitsAt(holes[i], layout, p)
  }

  lemma FitsAboveFirst(holes: seq<HoleInfo>, layout: Layout, i: nat, q: nat)
    requires Canonical(holes) && Fitted(layout) && i < |holes| && FitsAt(holes[i], layout, q)
    ensures
      var k := FirstFitIndex(holes, layout);
      k < |holes| && SplitHole(holes[k], layout).value.info.addr <= q
  {
    var k := FirstFitIndex(holes, layout);
    SplitHoleComplete(holes[i], layout, q);
    if k < i {
      SplitHoleTiles(holes[k], layout);
      InOrder(holes, k, i);
    }
  }

  /** First fit returns the lowest legal address of the whole heap, and fails iff none exists. */
  lemma AllocatedLowest(holes: seq<HoleInfo>, layout: Layout)
    requires Canonical(holes) && Fitted(layout)
    ensures Allocated(holes, layout).None? <==> !exists p: nat :: LegalAt(holes, layout, p)
    ensures Allocated(holes, layout).Some? ==>
              var p := Allocated(holes, layout).value.0.addr;
              LegalAt(holes, layout, p) && forall q: nat :: LegalAt(holes, layout, q) ==> p <= q
  {
    var k := FirstFitIndex(holes, layout);
    forall q: nat | LegalAt(holes, layout, q)
      ensures k < |holes| && SplitHole(holes[k], layout).value.info.addr <= q
    {
      var i :| 0 <= i < |holes| && FitsAt(holes[i], layout, q);
      FitsAboveFirst(holes, layout, i, q);
    }
    if k < |holes| {
      SplitHoleTiles(holes[k], layout);
      var p := SplitHole(holes[k], layout).value.info.addr;
      assert FitsAt(holes[k], layout, p) && LegalAt(holes, layout, p);
    }
  }

  /** The new list is canonical and covers exactly the old bytes minus the block. */
  lemma AllocatedExact(holes: seq<HoleInfo>, layout: Layout)
    requires Canonical(holes) && Fitted(layout) && Allocated(holes, layout).Some?
    ensures
      var (block, rest) := Allocated(holes, layout).value;
      && Canonical(rest) && ValidHole(block) && block.size == layout.size
      && (forall b: int :: Covers(rest, b) <==> Covers(holes, b) && !block.Has(b))
      && (forall b: int :: block.Has(b) ==> Covers(holes, b))
      && Total(rest) + block.size == Total(holes)
  {
    var k := FirstFitIndex(holes, layout);
    SplitHoleTiles(holes[k], layout);
    var a := SplitHole(holes[k], layout).value;
    SubstituteCanonical(holes, k, Leftovers(a));
    forall b: int
      ensures Covers(Substitute(holes, k, Leftovers(a)), b) <==> Covers(holes, b) && !a.info.Has(b)
    {
      SubstituteCovers(holes, k, Leftovers(a), b);
      LeftoversCover(holes[k], layout, b);
    }
    forall b: int | a.info.Has(b) ensures Covers(holes, b) {
      assert holes[k].Has(b);
    }
    SubstituteTotal(holes, k, Leftovers(a));
    TotalAppend(Opt(a.front), Opt(a.back));
  }

  lemma LeftoversCover(hole: HoleInfo, layout: Layout, b: int)
    requires ValidHole(hole) && Fitted(layout) && SplitHole(hole, layout).Some?
    ensures
      var a := SplitHole(hole, layout).value;
      Covers(Leftovers(a), b) <==> hole.Has(b) && !a.info.Has(b)
  {
    SplitHoleTiles(hole, layout);
    var a := SplitHole(hole, layout).value;
    var s := Leftovers(a);
    if a.front.Some? && a.front.value.Has(b) {
      assert s[0].Has(b);
    }
    if a.back.Some? && a.back.value.Has(b) {
      assert s[|s| - 1].Has(b);
    }
  }

  lemma SubstituteCanonical(holes: seq<HoleInfo>, k: nat, s: seq<HoleInfo>)
    requires Canonical(holes) && k < |holes| && Canonical(s)
    requires forall i :: 0 <= i < |s| ==> holes[k].addr <= s[i].addr && s[i].End() <= holes[k].End()
    ensures Canonical(Substitute(holes, k, s))
  {
    var r := Substitute(holes, k, s);
    forall i | 0 <= i < |r| ensures ValidHole(r[i]) {
      SubstituteAt(holes, k, s, i);
    }
    AllInOrder(holes, k);
    forall i, j | 0 <= i < j < |r| ensures Before(r[i], r[j]) {
      SubstituteAt(holes, k, s, i);
      SubstituteAt(holes, k, s, j);
    }
  }

  lemma SubstituteAt(holes: seq<HoleInfo>, k: nat, s: seq<HoleInfo>, i: nat)
    requires k < |holes| && i < |holes| - 1 + |s|
    ensures |Substitute(holes, k, s)| == |holes| - 1 + |s|
    ensures Substitute(holes, k, s)[i] ==
            if i < k then holes[i] else if i < k + |s| then s[i - k] else holes[i - |s| + 1]
  {
  }

  lemma SubstituteCovers(holes: seq<HoleInfo>, k: nat, s: seq<HoleInfo>, b: int)
    requires Canonical(holes) && k < |holes|
    ensures Covers(Substitute(holes, k, s), b) <==>
            Covers(s, b) || (Covers(holes, b) && !holes[k].Has(b))
  {
    var r := Substitute(holes, k, s);
    AllInOrder(holes, k);
    if Covers(r, b) {
      var i :| 0 <= i < |r| && r[i].Has(b);
      SubstituteAt(holes, k, s, i);
    }
    if Covers(s, b) {
      var i :| 0 <= i < |s| && s[i].Has(b);
      SubstituteAt(holes, k, s, i + k);
      assert r[i + k].Has(b);
    }
    if Covers(holes, b) && !holes[k].Has(b) {
      var i :| 0 <= i < |holes| && holes[i].Has(b);
      var j := if i < k then i else i - 1 + |s|;
      SubstituteAt(holes, k, s, j);
      assert r[j].Has(b);
    }
  }

  lemma SubstituteTotal(holes: seq<HoleInfo>, k: nat, s: seq<HoleInfo>)
    requires k < |holes|
    ensures Total(Substitute(holes, k, s)) + holes[k].size == Total(holes) + Total(s)
  {
    assert holes == holes[..k] + ([holes[k]] + holes[k + 1..]);
    TotalAppend(holes[..k], [holes[k]] + holes[k + 1..]);
    TotalAppend([holes[k]], holes[k + 1..]);
    TotalAppend(holes[..k] + s, holes[k + 1..]);
    TotalAppend(holes[..k], s);
  }

  // --- The list after a release ----------------------------------------------------------------

  /** How many holes start at or below `addr`. */
  function CountBelow(holes: seq<HoleInfo>, addr: nat): (k: nat)
    ensures k <= |holes|
    ensures forall i :: 0 <= i < k ==> holes[i].addr <= addr
    ensures k < |holes| ==> addr < holes[k].addr
  {
    if holes == [] || addr < holes[0].addr then 0 else 1 + CountBelow(holes[1..], addr)
  }

  /** The range of holes that touch the block: none, one neighbour, or both. */
  function Touching(holes: seq<HoleInfo>, addr: nat, size: nat): (r: (nat, nat))
    ensures r.0 <= r.1 <= |holes|
  {
    var k := CountBelow(holes, addr);
    (if k > 0 && holes[k - 1].End() == addr then k - 1 else k,
     if k < |holes| && addr + size == holes[k].addr then k + 1 else k)
  }

  /** The block goes between its neighbours and swallows the ones it touches. */
  function Released(holes: seq<HoleInfo>, addr: nat, size: nat): (r: seq<HoleInfo>) {
    var (i, j) := Touching(holes, addr, size);
    holes[..i] + [Merged(holes[i..j], addr, size)] + holes[j..]
  }

  /** The block joined with the holes that touch it. */
  function Merged(mid: seq<HoleInfo>, addr: nat, size: nat): (h: HoleInfo) {
    HoleInfo(if mid != [] && mid[0].addr < addr then mid[0].addr else addr, Total(mid) + size)
  }

  ghost predicate DisjointFrom(h: HoleInfo, s: seq<HoleInfo>) {
    forall i :: 0 <= i < |s| ==> h.End() <= s[i].addr || s[i].End() <= h.addr
  }

  /** Releasing a block adds exactly its bytes, and the list stays canonical. */
  lemma ReleasedExact(holes: seq<HoleInfo>, addr: nat, size: nat)
    requires Canonical(holes) && ValidHole(HoleInfo(addr, size))
    requires DisjointFrom(HoleInfo(addr, size), holes)
    ensures Canonical(Released(holes, addr, size))
    ensures forall b: int :: Covers(Released(holes, addr, size), b) <==>
                             Covers(holes, b) || HoleInfo(addr, size).Has(b)
    ensures Total(Released(holes, addr, size)) == Total(holes) + size
  {
    var (i, j) := Touching(holes, addr, size);
    var hole := Merged(holes[i..j], addr, size);
    MergedSeparate(holes, addr, size);
    JoinCanonical(holes[..i], hole, holes[j..]);
    forall b: int
      ensures Covers(Released(holes, addr, size), b) <==>
              Covers(holes, b) || HoleInfo(addr, size).Has(b)
    {
      JoinCovers(holes[..i], hole, holes[j..], b);
      CoversThree(holes, i, j, b);
      MergedCovers(holes, addr, size, b);
    }
    ReleasedTotal(holes, addr, size);
  }

  lemma ReleasedTotal(holes: seq<HoleInfo>, addr: nat, size: nat)
    ensures Total(Released(holes, addr, size)) == Total(holes) + size
  {
    var (i, j) := Touching(holes, addr, size);
    var hole := Merged(holes[i..j], addr, size);
    TotalThree(holes[..i], holes[i..j], holes[j..]);
    assert holes == holes[..i] + holes[i..j] + holes[j..];
    TotalThree(holes[..i], [hole], holes[j..]);
  }

  /** The merged hole runs from the start of the first touched hole to the end of the last. */
  lemma MergedBounds(holes: seq<HoleInfo>, addr: nat, size: nat)
    requires Canonical(holes)
    ensures
      var k := CountBelow(holes, addr);
      var (i, j) := Touching(holes, addr, size);
      var hole := Merged(holes[i..j], addr, size);
      && k - 1 <= i <= k <= j <= k + 1
      && holes[i..j] == holes[i..k] + holes[k..j]
      && hole.addr == (if i < k then holes[i].addr else addr)
      && hole.End() == (if k < j then holes[k].End() else addr + size)
  {
    var k := CountBelow(holes, addr);
    var (i, j) := Touching(holes, addr, size);
    assert holes[i..j] == holes[i..k] + holes[k..j];
    TotalAppend(holes[i..k], holes[k..j]);
    if i < k {
      assert holes[i..k] == [holes[i]];
    }
    if k < j {
      assert holes[k..j] == [holes[k]];
    }
  }

  lemma MergedSeparate(holes: seq<HoleInfo>, addr: nat, size: nat)
    requires Canonical(holes) && ValidHole(HoleInfo(addr, size))
    requires DisjointFrom(HoleInfo(addr, size), holes)
    ensures
      var (i, j) := Touching(holes, addr, size);
      var hole := Merged(holes[i..j], addr, size);
      && ValidHole(hole)
      && (forall n :: 0 <= n < i ==> holes[n].End() < hole.addr)
      && (forall n :: j <= n < |holes| ==> hole.End() < holes[n].addr)
  {
    MergedBounds(holes, addr, size);
    var (i, j) := Touching(holes, addr, size);
    BetweenNeighbours(holes, HoleInfo(addr, size), CountBelow(holes, addr), i, j, Merged(holes[i..j], addr, size));
  }

  lemma BetweenNeighbours(holes: seq<HoleInfo>, block: HoleInfo, k: nat, i: nat, j: nat, hole: HoleInfo)
    requires Canonical(holes) && ValidHole(block) && DisjointFrom(block, holes) && k <= |holes|
    requires (k > 0 ==> holes[k - 1].addr <= block.addr) && (k < |holes| ==> block.addr < holes[k].addr)
    requires i == if k > 0 && holes[k - 1].End() == block.addr then k - 1 else k
    requires j == if k < |holes| && block.End() == holes[k].addr then k + 1 else k
    requires hole.addr == (if i < k then holes[i].addr else block.addr) && hole.End() == (if k < j then holes[k].End() else block.End())
    ensures ValidHole(hole)
    ensures forall n :: 0 <= n < i ==> holes[n].End() < hole.addr
    ensures forall n :: j <= n < |holes| ==> hole.End() < holes[n].addr
  {
    if k > 0 {
      AllInOrder(holes, k - 1);
      assert ValidHole(holes[k - 1]);
    }
    if k < |holes| {
      AllInOrder(holes, k);
      assert ValidHole(holes[k]);
    }
  }

  lemma MergedCovers(holes: seq<HoleInfo>, addr: nat, size: nat, b: int)
    requires Canonical(holes)
    ensures
      var (i, j) := Touching(holes, addr, size);
      Merged(holes[i..j], addr, size).Has(b) <==> Covers(holes[i..j], b) || HoleInfo(addr, size).Has(b)
  {
    MergedBounds(holes, addr, size);
    var k := CountBelow(holes, addr);
    var (i, j) := Touching(holes, addr, size);
    CoversAppend(holes[i..k], holes[k..j], b);
    if i < k {
      assert holes[i..k] == [holes[i]];
      CoversOne(holes[i], b);
    }
    if k < j {
      assert holes[k..j] == [holes[k]];
      CoversOne(holes[k], b);
    }
  }

  lemma TotalThree(a: seq<HoleInfo>, b: seq<HoleInfo>, c: seq<HoleInfo>)
    ensures Total(a + b + c) == Total(a) + Total(b) + Total(c)
  {
    TotalAppend(a + b, c);
    TotalAppend(a, b);
  }

  lemma CoversThree(s: seq<HoleInfo>, i: nat, j: nat, b: int)
    requires i <= j <= |s|
    ensures Covers(s, b) <==> Covers(s[..i], b) || Covers(s[i..j], b) || Covers(s[j..], b)
  {
    CoversSplit(s, j, b);
    CoversSplit(s[..j], i, b);
    assert s[..j][..i] == s[..i] && s[..j][i..] == s[i..j];
  }

  lemma JoinCanonical(pre: seq<HoleInfo>, h: HoleInfo, post: seq<HoleInfo>)
    requires Canonical(pre) && Canonical(post) && ValidHole(h)
    requires forall i :: 0 <= i < |pre| ==> pre[i].End() < h.addr
    requires forall i :: 0 <= i < |post| ==> h.End() < post[i].addr
    ensures Canonical(pre + [h] + post)
  {
    var r := pre + [h] + post;
    forall i, j | 0 <= i < j < |r| ensures Before(r[i], r[j]) {
      assert r[i] == (if i < |pre| then pre[i] else if i == |pre| then h else post[i - |pre| - 1]);
      assert r[j] == (if j < |pre| then pre[j] else if j == |pre| then h else post[j - |pre| - 1]);
    }
  }

  lemma JoinCovers(pre: seq<HoleInfo>, h: HoleInfo, post: seq<HoleInfo>, b: int)
    ensures Covers(pre + [h] + post, b) <==> Covers(pre, b) || h.Has(b) || Covers(post, b)
  {
    CoversAppend(pre + [h], post, b);
    CoversAppend(pre, [h], b);
    CoversOne(h, b);
  }

  lemma CoversAppend(s: seq<HoleInfo>, t: seq<HoleInfo>, b: int)
    ensures Covers(s + t, b) <==> Covers(s, b) || Covers(t, b)
  {
    CoversSplit(s + t, |s|, b);
    assert (s + t)[..|s|] == s && (s + t)[|s|..] == t;
  }

  lemma CoversOne(h: HoleInfo, b: int)
    ensures Covers([h], b) <==> h.Has(b)
  {
    if h.Has(b) {
      assert [h][0].Has(b);
    }
  }

  lemma CoversSplit(s: seq<HoleInfo>, k: nat, b: int)
    requires k <= |s|
    ensures Covers(s, b) <==> Covers(s[..k], b) || Covers(s[k..], b)
  {
    if Covers(s, b) {
      var i :| 0 <= i < |s| && s[i].Has(b);
      if i < k {
        assert s[..k][i].Has(b);
      } else {
        assert s[k..][i - k].Has(b);
      }
    }
    if Covers(s[..k], b) {
      var i :| 0 <= i < k && s[..k][i].Has(b);
      assert s[i].Has(b);
    }
    if Covers(s[k..], b) {
      var i :| 0 <= i < |s| - k && s[k..][i].Has(b);
      assert s[i + k].Has(b);
    }
  }
}
