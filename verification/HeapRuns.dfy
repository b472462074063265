/** Whole histories of the first-fit heap: every run of allocations and frees. */
module HeapRuns {
  import opened Sequences
  import opened HoleList
  import opened Options

  datatype State = State(holes: seq<HoleInfo>, live: seq<HoleInfo>, used: int)

  /** One call of the allocator; a free names the live block by its position. */
  datatype Op = Alloc(layout: Layout) | Free(index: nat) {
    ghost predicate Valid() { Alloc? ==> layout.Valid() }
  }

  function Initial(lo: nat, hi: nat): (s: State)
    requires lo <= hi
  {
    State([HoleInfo(lo, hi - lo)], [], 0)
  }

  function Step(s: State, op: Op): (r: State)
    requires op.Valid()
  {
    match op
    case Alloc(layout) =>
      var fitted := AlignLayout(layout);
      (match Allocated(s.holes, fitted)
       case None => s
       case Some((block, rest)) => State(rest, s.live + [block], s.used + fitted.size))
    case Free(i) =>
      if i >= |s.live| then s
      else State(Released(s.holes, s.live[i].addr, s.live[i].size), Without(s.live, i), s.used - s.live[i].size)
  }

  function Run(s: State, ops: seq<Op>): (r: State)
    requires forall i :: 0 <= i < |ops| ==> ops[i].Valid()
    decreases |ops|
  {
    if ops == [] then s else Run(Step(s, ops[0]), ops[1..])
  }

  /** Live blocks are aligned, large enough and pairwise disjoint. */
  ghost predicate LiveBlocks(live: seq<HoleInfo>) {
    && (forall i :: 0 <= i < |live| ==> ValidHole(live[i]))
    && (forall i, j {:trigger Clear(live[i], live[j])} :: 0 <= i < j < |live| ==> Clear(live[i], live[j]))
  }

  predicate Clear(h: HoleInfo, g: HoleInfo) { h.End() <= g.addr || g.End() <= h.addr }

  /** Every byte of the region belongs to exactly one side, and no byte outside to any. */
  ghost predicate Tiled(holes: seq<HoleInfo>, live: seq<HoleInfo>, lo: nat, hi: nat) {
    && (forall b: int :: lo <= b < hi <==> Covers(holes, b) || Covers(live, b))
    && (forall b: int :: !(Covers(holes, b) && Covers(live, b)))
  }

  ghost predicate Inv(s: State, lo: nat, hi: nat) {
    && Canonical(s.holes) && LiveBlocks(s.live) && Tiled(s.holes, s.live, lo, hi)
    && s.used == Total(s.live)
    && lo <= hi && Total(s.holes) + Total(s.live) == hi - lo
  }

  lemma InitialInv(lo: nat, hi: nat)
    requires 0 < lo && lo % HOLE_ALIGN == 0 && lo + MIN_ALLOC_SIZE <= hi
    ensures Inv(Initial(lo, hi), lo, hi)
  {
    forall b: int ensures lo <= b < hi <==> Covers(Initial(lo, hi).holes, b) {
      CoversOne(HoleInfo(lo, hi - lo), b);
    }
  }

  /** A region too small for a node is one hole that no request fits, for ever. */
  lemma {:induction false} SmallRegionServesNothing(lo: nat, hi: nat, ops: seq<Op>)
    requires lo <= hi < lo + MIN_ALLOC_SIZE && forall i :: 0 <= i < |ops| ==> ops[i].Valid()
    ensures Run(Initial(lo, hi), ops) == Initial(lo, hi)
    decreases |ops|
  {
    if ops == [] {
    } else {
      if ops[0].Alloc? {
        NothingFits(HoleInfo(lo, hi - lo), AlignLayout(ops[0].layout));
      }
      SmallRegionServesNothing(lo, hi, ops[1..]);
    }
  }

  lemma NothingFits(hole: HoleInfo, layout: Layout)
    requires hole.size < MIN_ALLOC_SIZE && Fitted(layout)
    ensures Allocated([hole], layout) == None
  {
    assert SplitHole(hole, layout) == None;
  }

  /** Live blocks keep clear of the holes. */
  lemma LiveClear(s: State, lo: nat, hi: nat, i: nat)
    requires Inv(s, lo, hi) && i < |s.live|
    ensures DisjointFrom(s.live[i], s.holes)
  {
    var l := s.live[i];
    forall n | 0 <= n < |s.holes| ensures l.End() <= s.holes[n].addr || s.holes[n].End() <= l.addr {
      var h := s.holes[n];
      var b := if l.addr < h.addr then h.addr else l.addr;
      assert l.Has(b) ==> Covers(s.live, b);
      assert h.Has(b) ==> Covers(s.holes, b);
    }
  }

  lemma StepInv(s: State, op: Op, lo: nat, hi: nat)
    requires Inv(s, lo, hi) && op.Valid()
    ensures Inv(Step(s, op), lo, hi)
  {
    match op
    case Alloc(layout) =>
      if Allocated(s.holes, AlignLayout(layout)).Some? {
        AllocInv(s, AlignLayout(layout), lo, hi);
      }
    case Free(i) =>
      if i < |s.live| {
        FreeInv(s, i, lo, hi);
      }
  }

  /**
    What a request is answered with, in its own terms: the lowest place in a hole for a block of
    the least size that will do, or nothing exactly if there is no such place.
   */
  ghost predicate Served(s: State, layout: Layout, n: nat, r: Option<nat>, s': State)
    requires layout.align > 0
  {
    match r
    case None => s' == s && forall q: nat :: !LegalAt(s.holes, Layout(n, layout.align), q)
    case Some(p) =>
      && LegalAt(s.holes, Layout(n, layout.align), p) && (forall q: nat :: LegalAt(s.holes, Layout(n, layout.align), q) ==> p <= q)
      && s'.live == s.live + [HoleInfo(p, n)] && s'.used == s.used + n
      && (forall b: int :: Covers(s'.holes, b) <==> Covers(s.holes, b) && !(p <= b < p + n))
  }

  function Answer(s: State, layout: Layout): (r: Option<nat>)
    requires layout.align > 0
  {
    match Allocated(s.holes, AlignLayout(layout)) case None => None case Some((block, _)) => Some(block.addr)
  }

  /** Every request is served, whatever its size and alignment. */
  lemma RequestServed(s: State, layout: Layout, n: nat, lo: nat, hi: nat)
    requires Inv(s, lo, hi) && layout.Valid() && layout.align > 0 && BlockSize(n, layout.size)
    ensures Served(s, layout, n, Answer(s, layout), Step(s, Alloc(layout)))
  {
    var fitted := AlignLayout(layout);
    assert fitted == Layout(n, layout.align);
    AllocatedLowest(s.holes, fitted);
    if Allocated(s.holes, fitted).Some? {
      AllocatedExact(s.holes, fitted);
    }
  }

  lemma AllocInv(s: State, layout: Layout, lo: nat, hi: nat)
    requires Inv(s, lo, hi) && Fitted(layout) && Allocated(s.holes, layout).Some?
    ensures
      var (block, rest) := Allocated(s.holes, layout).value;
      Inv(State(rest, s.live + [block], s.used + layout.size), lo, hi)
  {
    AllocatedExact(s.holes, layout);
    var (block, rest) := Allocated(s.holes, layout).value;
    TakeInv(s, block, rest, lo, hi);
  }

  /** Moving the bytes of a block from the holes to the live blocks keeps the invariant. */
  lemma TakeInv(s: State, block: HoleInfo, rest: seq<HoleInfo>, lo: nat, hi: nat)
    requires Inv(s, lo, hi) && Canonical(rest) && ValidHole(block)
    requires forall b: int :: Covers(rest, b) <==> Covers(s.holes, b) && !block.Has(b)
    requires forall b: int :: block.Has(b) ==> Covers(s.holes, b)
    requires Total(rest) + block.size == Total(s.holes)
    ensures Inv(State(rest, s.live + [block], s.used + block.size), lo, hi)
  {
    TakeTiled(s, block, rest, lo, hi);
    TakeLive(s, block, lo, hi);
    TotalAppend(s.live, [block]);
  }

  lemma TakeTiled(s: State, block: HoleInfo, rest: seq<HoleInfo>, lo: nat, hi: nat)
    requires Tiled(s.holes, s.live, lo, hi)
    requires forall b: int :: Covers(rest, b) <==> Covers(s.holes, b) && !block.Has(b)
    requires forall b: int :: block.Has(b) ==> Covers(s.holes, b)
    ensures Tiled(rest, s.live + [block], lo, hi)
  {
    forall b: int
      ensures lo <= b < hi <==> Covers(rest, b) || Covers(s.live + [block], b)
      ensures !(Covers(rest, b) && Covers(s.live + [block], b))
    {
      CoversAppend(s.live, [block], b);
      CoversOne(block, b);
      assert lo <= b < hi <==> Covers(s.holes, b) || Covers(s.live, b);
      assert block.Has(b) ==> Covers(s.holes, b);
    }
  }

  lemma TakeLive(s: State, block: HoleInfo, lo: nat, hi: nat)
    requires Inv(s, lo, hi) && ValidHole(block)
    requires forall b: int :: block.Has(b) ==> Covers(s.holes, b)
    ensures LiveBlocks(s.live + [block])
  {
    var live := s.live + [block];
    forall i, j | 0 <= i < j < |live| ensures Clear(live[i], live[j]) {
      if j == |s.live| {
        BlockClear(s, lo, hi, block, i);
      } else {
        assert Clear(s.live[i], s.live[j]);
      }
    }
  }

  lemma BlockClear(s: State, lo: nat, hi: nat, block: HoleInfo, i: nat)
    requires Inv(s, lo, hi) && i < |s.live| && ValidHole(block)
    requires forall b: int :: block.Has(b) ==> Covers(s.holes, b)
    ensures s.live[i].End() <= block.addr || block.End() <= s.live[i].addr
  {
    var l := s.live[i];
    if l.addr < block.End() && block.addr < l.End() {
      var b := if l.addr < block.addr then block.addr else l.addr;
      assert l.Has(b) && Covers(s.live, b) && block.Has(b);
    }
  }

  lemma FreeInv(s: State, i: nat, lo: nat, hi: nat)
    requires Inv(s, lo, hi) && i < |s.live|
    ensures Inv(Step(s, Free(i)), lo, hi)
  {
    var l := s.live[i];
    LiveClear(s, lo, hi, i);
    ReleasedExact(s.holes, l.addr, l.size);
    FreeTiled(s.holes, Released(s.holes, l.addr, l.size), s.live, i, lo, hi);
    WithoutLive(s.live, i);
    WithoutTotal(s.live, i);
  }

  lemma FreeTiled(holes: seq<HoleInfo>, holes': seq<HoleInfo>, live: seq<HoleInfo>, i: nat, lo: nat, hi: nat)
    requires Tiled(holes, live, lo, hi) && LiveBlocks(live) && i < |live|
    requires forall b: int :: Covers(holes', b) <==> Covers(holes, b) || live[i].Has(b)
    ensures Tiled(holes', Without(live, i), lo, hi)
  {
    forall b: int
      ensures lo <= b < hi <==> Covers(holes', b) || Covers(Without(live, i), b)
      ensures !(Covers(holes', b) && Covers(Without(live, i), b))
    {
      WithoutCovers(live, i, b);
      assert live[i].Has(b) ==> Covers(live, b);
    }
  }

  lemma {:induction false} WithoutTotal(live: seq<HoleInfo>, i: nat)
    requires i < |live|
    ensures Total(Without(live, i)) + live[i].size == Total(live)
  {
    assert live == live[..i] + [live[i]] + live[i + 1..];
    TotalInsert(live[..i], live[i], live[i + 1..]);
  }

  lemma {:induction false} TotalInsert(a: seq<HoleInfo>, x: HoleInfo, b: seq<HoleInfo>)
    ensures Total(a + [x] + b) == Total(a + b) + x.size
  {
    TotalThree(a, [x], b);
    TotalAppend(a, b);
    assert [x][1..] == [];
  }

  lemma WithoutLive(live: seq<HoleInfo>, i: nat)
    requires LiveBlocks(live) && i < |live|
    ensures LiveBlocks(Without(live, i))
  {
  }

  lemma WithoutCovers(live: seq<HoleInfo>, i: nat, b: int)
    requires LiveBlocks(live) && i < |live|
    ensures Covers(Without(live, i), b) <==> Covers(live, b) && !live[i].Has(b)
  {
    CoversAppend(live[..i], live[i + 1..], b);
    JoinCovers(live[..i], live[i], live[i + 1..], b);
    assert live == live[..i] + [live[i]] + live[i + 1..];
    forall n | 0 <= n < |live| && n != i && live[i].Has(b) ensures !live[n].Has(b) {
      assert n < i ==> Clear(live[n], live[i]);
      assert i < n ==> Clear(live[i], live[n]);
    }
  }

  /** The invariant of every run: canonical holes, exact tiling, exact accounting. */
  lemma {:induction false} RunInv(s: State, ops: seq<Op>, lo: nat, hi: nat)
    requires Inv(s, lo, hi)
    requires forall i :: 0 <= i < |ops| ==> ops[i].Valid()
    ensures Inv(Run(s, ops), lo, hi)
    decreases |ops|
  {
    if ops != [] {
      StepInv(s, ops[0], lo, hi);
      RunInv(Step(s, ops[0]), ops[1..], lo, hi);
    }
  }

  /** The holes depend on the set of live blocks alone, not on the history. */
  lemma HolesFromLive(s: State, t: State, lo: nat, hi: nat)
    requires Inv(s, lo, hi) && Inv(t, lo, hi)
    requires SameBytes(s.live, t.live)
    ensures s.holes == t.holes
  {
    forall b: int ensures Covers(s.holes, b) <==> Covers(t.holes, b) {
      assert lo <= b < hi <==> Covers(s.holes, b) || Covers(s.live, b);
      assert lo <= b < hi <==> Covers(t.holes, b) || Covers(t.live, b);
      assert Covers(s.live, b) <==> Covers(t.live, b);
    }
    CanonicalUnique(s.holes, t.holes);
  }

  /** Freeing the block just allocated restores the identical state. */
  lemma FreeUndoesAlloc(s: State, layout: Layout, lo: nat, hi: nat)
    requires Inv(s, lo, hi) && layout.Valid()
    requires Allocated(s.holes, AlignLayout(layout)).Some?
    ensures Step(Step(s, Alloc(layout)), Free(|s.live|)) == s
  {
    StepInv(s, Alloc(layout), lo, hi);
    var t := Step(s, Alloc(layout));
    StepInv(t, Free(|s.live|), lo, hi);
    var u := Step(t, Free(|s.live|));
    assert u.live == s.live;
    HolesFromLive(s, u, lo, hi);
  }

  /** Two frees commute, so only the set of frees matters, never their order. */
  lemma FreesCommute(s: State, i: nat, j: nat, lo: nat, hi: nat)
    requires Inv(s, lo, hi) && i < j < |s.live|
    ensures Step(Step(s, Free(i)), Free(j - 1)) == Step(Step(s, Free(j)), Free(i))
  {
    var s1, s2 := Step(s, Free(i)), Step(s, Free(j));
    FreeInv(s, i, lo, hi);
    FreeInv(s, j, lo, hi);
    FreeInv(s1, j - 1, lo, hi);
    FreeInv(s2, i, lo, hi);
    WithoutCommute(s.live, i, j);
    HolesFromLive(Step(s1, Free(j - 1)), Step(s2, Free(i)), lo, hi);
  }

  lemma WithoutCommute(live: seq<HoleInfo>, i: nat, j: nat)
    requires i < j < |live|
    ensures Without(Without(live, i), j - 1) == Without(Without(live, j), i)
  {
  }

  /** Whatever happened before, once everything is free the heap is the initial single hole. */
  lemma DrainedIsInitial(lo: nat, hi: nat, ops: seq<Op>)
    requires 0 < lo && lo % HOLE_ALIGN == 0 && lo + MIN_ALLOC_SIZE <= hi
    requires forall i :: 0 <= i < |ops| ==> ops[i].Valid()
    requires Run(Initial(lo, hi), ops).live == []
    ensures Run(Initial(lo, hi), ops) == Initial(lo, hi)
  {
    InitialInv(lo, hi);
    RunInv(Initial(lo, hi), ops, lo, hi);
    HolesFromLive(Run(Initial(lo, hi), ops), Initial(lo, hi), lo, hi);
  }

  /** After a free, the address lies in a hole until it is allocated again: a second free is caught. */
  lemma FreedAddressIsCovered(s: State, i: nat, lo: nat, hi: nat)
    requires Inv(s, lo, hi) && i < |s.live|
    ensures Covers(Step(s, Free(i)).holes, s.live[i].addr)
    ensures !Covers(s.holes, s.live[i].addr)
  {
    var l := s.live[i];
    LiveClear(s, lo, hi, i);
    ReleasedExact(s.holes, l.addr, l.size);
    assert l.Has(l.addr) && Covers(s.live, l.addr);
  }
}
