/** Protection changes over page ranges, and whole histories of one address space. */
module PageRuns {
  import opened VirtualMemory
  import opened Sequences
  import opened PageTable
  import opened PageRights

  /** Neither a table nor a page of the space is huge. */
  ghost predicate NoHuge(s: Space) {
    forall idx {:trigger Lookup(s, idx)} :: ValidIndices(idx) ==> Lookup(s, idx) != HugePage
  }

  // --- set_flags ----------------------------------------------------------------------------

  function Reflagged(m: Mapping, flags: Flags): (r: Mapping) {
    match m case Leaf(e) => Leaf(Entry(e.frame, flags)) case _ => m
  }

  /** One page of `set_flags`: widen or create the upper levels, then replace the leaf's flags. */
  function SetPageFlags(s: Space, idx: seq<nat>, flags: Flags, supply: Supply): (r: (Space, bool, Supply))
    requires RightsInv(s) && NoHuge(s) && ValidIndices(idx) && Present in flags && Fresh(s, supply)
  {
    assert TableOk(s, s.root);
    var (s1, d, left) := Descend(s, s.root, idx, flags * PARENT_FLAGS, supply);
    DescendKeeps(s, s.root, idx, flags * PARENT_FLAGS, supply);
    match d
    case Table(t) =>
      assert TableOk(s1, t);
      var e := s1.tables[t][idx[3]];
      if e.IsUnused() then (s1, true, left)
      else (WithEntry(s1, t, idx[3], Entry(e.frame, flags)), true, left)
    case _ => (s1, false, left)
  }

  /** What one operation leaves behind besides the translations. */
  ghost predicate Kept(s: Space, supply: Supply, s': Space, left: Supply) {
    && RightsInv(s') && NoHuge(s') && s'.root == s.root
    && |left| <= |supply| && supply == Taken(supply, left) + left
    && s'.path.Keys == s.path.Keys + Elements(Taken(supply, left))
  }

  lemma KeptFresh(s: Space, supply: Supply, s': Space, left: Supply)
    requires Kept(s, supply, s', left) && Fresh(s, supply)
    ensures Fresh(s', left)
  {
    LeftFresh(s, supply, s', left);
  }

  lemma SetPageFlagsExact(s: Space, idx: seq<nat>, flags: Flags, supply: Supply)
    requires RightsInv(s) && NoHuge(s) && ValidIndices(idx) && Present in flags && Fresh(s, supply)
    ensures
      var (s', ok, left) := SetPageFlags(s, idx, flags, supply);
      && Kept(s, supply, s', left)
      && (forall j {:trigger Lookup(s', j)} :: ValidIndices(j) ==>
            Lookup(s', j) == if ok && j == idx then Reflagged(Lookup(s, j), flags) else Lookup(s, j))
  {
    assert TableOk(s, s.root);
    var (s1, d, left) := Descend(s, s.root, idx, flags * PARENT_FLAGS, supply);
    DescendKeeps(s, s.root, idx, flags * PARENT_FLAGS, supply);
    DescendRights(s, s.root, idx, flags * PARENT_FLAGS, supply);
    TranslateByWalk(s1.tables, s.root, idx);
    assert Lookup(s1, idx) == Lookup(s, idx);
    if d.Table? {
      assert [] + idx[..3] == idx[..3];
      assert TableOk(s1, d.frame);
      var e := s1.tables[d.frame][idx[3]];
      if !e.IsUnused() {
        LeafWrite(s1, d.frame, Entry(e.frame, flags), idx);
        LeafWriteRights(s1, d.frame, Entry(e.frame, flags), idx);
      }
    }
    var (s', ok, left') := SetPageFlags(s, idx, flags, supply);
    forall j | ValidIndices(j)
      ensures Lookup(s', j) == if ok && j == idx then Reflagged(Lookup(s, j), flags) else Lookup(s, j)
    {
      assert Lookup(s1, j) == Lookup(s, j);
    }
  }

  ghost predicate SameFrame(m: Mapping, m': Mapping) {
    && (m'.Leaf? <==> m.Leaf?)
    && (m.Leaf? ==> m'.entry.frame == m.entry.frame)
  }

  /** Every page keeps its frame, `taken` became tables, and other memory is as before. */
  ghost predicate Rewritten(s: Space, s': Space, taken: seq<nat>) {
    && s'.root == s.root && s'.path.Keys == s.path.Keys + Elements(taken)
    && (forall g :: g in s.tables && g !in s'.path ==> g in s'.tables && s'.tables[g] == s.tables[g])
    && (forall idx {:trigger Lookup(s', idx)} :: ValidIndices(idx) ==> SameFrame(Lookup(s, idx), Lookup(s', idx)))
  }

  lemma RewrittenJoin(s: Space, s1: Space, s2: Space, a: seq<nat>, b: seq<nat>)
    requires Rewritten(s, s1, a) && Rewritten(s1, s2, b)
    ensures Rewritten(s, s2, a + b)
  {
    assert Elements(a + b) == Elements(a) + Elements(b);
    forall idx | ValidIndices(idx) ensures SameFrame(Lookup(s, idx), Lookup(s2, idx)) {
      assert SameFrame(Lookup(s, idx), Lookup(s1, idx)) && SameFrame(Lookup(s1, idx), Lookup(s2, idx));
    }
  }

  lemma SetPageFlagsRewrites(s: Space, idx: seq<nat>, flags: Flags, supply: Supply)
    requires RightsInv(s) && NoHuge(s) && ValidIndices(idx) && Present in flags && Fresh(s, supply)
    ensures
      var (s', ok, left) := SetPageFlags(s, idx, flags, supply);
      |left| <= |supply| && Rewritten(s, s', Taken(supply, left))
  {
    SetPageFlagsExact(s, idx, flags, supply);
    assert TableOk(s, s.root);
    DescendKeeps(s, s.root, idx, flags * PARENT_FLAGS, supply);
  }

  /** The pages `start..end`; the second result is the first page that was not reached. */
  function SetFlags(s: Space, start: nat, end: nat, flags: Flags, supply: Supply): (r: (Space, nat, Supply))
    requires RightsInv(s) && NoHuge(s) && Present in flags && Fresh(s, supply)
    decreases end - start
  {
    if start >= end then (s, start, supply)
    else
      var (s1, ok, left) := SetPageFlags(s, Indices(start), flags, supply);
      SetPageFlagsExact(s, Indices(start), flags, supply);
      KeptFresh(s, supply, s1, left);
      if ok then SetFlags(s1, start + 1, end, flags, left) else (s1, start, left)
  }

  ghost predicate CanonicalRange(start: nat, end: nat) {
    forall p :: start <= p < end ==> CanonicalPage(p)
  }

  /** The pages `start..stop` have the new flags where they were mapped; the rest is as before. */
  ghost predicate Reflags(s: Space, s': Space, start: nat, stop: nat, flags: Flags) {
    forall q: nat {:trigger Lookup(s', Indices(q))} :: CanonicalPage(q) ==>
      Lookup(s', Indices(q)) ==
      if start <= q < stop then Reflagged(Lookup(s, Indices(q)), flags) else Lookup(s, Indices(q))
  }

  ghost predicate RangeOk(s: Space, start: nat, end: nat, flags: Flags, supply: Supply, s': Space, stop: nat, left: Supply) {
    && Kept(s, supply, s', left) && start <= stop <= end && (stop < end ==> left == [])
    && Reflags(s, s', start, stop, flags)
  }

  /** A range is reflagged page by page: exactly the pages reached, and only where mapped. */
  lemma {:induction false} SetFlagsExact(s: Space, start: nat, end: nat, flags: Flags, supply: Supply)
    requires RightsInv(s) && NoHuge(s) && Present in flags && Fresh(s, supply)
    requires start <= end && CanonicalRange(start, end)
    ensures var (s', stop, left) := SetFlags(s, start, end, flags, supply);
            RangeOk(s, start, end, flags, supply, s', stop, left)
    decreases end - start
  {
    if start == end {
      RangeEmpty(s, start, flags, supply);
    } else {
      FirstPage(s, start, flags, supply);
      var (s1, ok, left1) := SetPageFlags(s, Indices(start), flags, supply);
      if ok {
        SetFlagsExact(s1, start + 1, end, flags, left1);
        var (s', stop, left) := SetFlags(s1, start + 1, end, flags, left1);
        RangeJoin(s, start, end, flags, supply, s1, left1, s', stop, left);
        assert SetFlags(s, start, end, flags, supply) == (s', stop, left);
      }
    }
  }

  lemma RangeEmpty(s: Space, start: nat, flags: Flags, supply: Supply)
    requires RightsInv(s) && NoHuge(s)
    ensures RangeOk(s, start, start, flags, supply, s, start, supply)
  {
    assert Taken(supply, supply) == [];
  }

  lemma FirstPage(s: Space, start: nat, flags: Flags, supply: Supply)
    requires RightsInv(s) && NoHuge(s) && Present in flags && Fresh(s, supply) && CanonicalPage(start)
    ensures
      var (s1, ok, left1) := SetPageFlags(s, Indices(start), flags, supply);
      && Kept(s, supply, s1, left1) && Fresh(s1, left1)
      && Reflags(s, s1, start, if ok then start + 1 else start, flags) && (!ok ==> left1 == [])
  {
    var (s1, ok, left1) := SetPageFlags(s, Indices(start), flags, supply);
    SetPageFlagsExact(s, Indices(start), flags, supply);
    KeptFresh(s, supply, s1, left1);
    OnePageReflags(s, s1, start, ok, flags);
    if !ok {
      StoppedEmpty(s, Indices(start), flags, supply);
    }
  }

  lemma RangeJoin(s: Space, start: nat, end: nat, flags: Flags, supply: Supply,
                  s1: Space, left1: Supply, s': Space, stop: nat, left: Supply)
    requires Kept(s, supply, s1, left1) && Reflags(s, s1, start, start + 1, flags)
    requires RangeOk(s1, start + 1, end, flags, left1, s', stop, left)
    ensures RangeOk(s, start, end, flags, supply, s', stop, left)
  {
    KeptJoin(s, supply, s1, left1, s', left);
    ReflagsJoin(s, s1, s', start, stop, flags);
  }

  lemma OnePageReflags(s: Space, s1: Space, start: nat, ok: bool, flags: Flags)
    requires CanonicalPage(start)
    requires forall j {:trigger Lookup(s1, j)} :: ValidIndices(j) ==>
               Lookup(s1, j) == if ok && j == Indices(start) then Reflagged(Lookup(s, j), flags) else Lookup(s, j)
    ensures Reflags(s, s1, start, if ok then start + 1 else start, flags)
  {
    forall q: nat | CanonicalPage(q) && q != start ensures Indices(q) != Indices(start) {
      if Indices(q) == Indices(start) {
        IndicesInjective(q, start);
      }
    }
  }

  lemma ReflagsJoin(s: Space, s1: Space, s2: Space, start: nat, stop: nat, flags: Flags)
    requires Reflags(s, s1, start, start + 1, flags) && Reflags(s1, s2, start + 1, stop, flags) && start + 1 <= stop
    ensures Reflags(s, s2, start, stop, flags)
  {
    forall q: nat | CanonicalPage(q)
      ensures Lookup(s2, Indices(q)) ==
              if start <= q < stop then Reflagged(Lookup(s, Indices(q)), flags) else Lookup(s, Indices(q))
    {
      assert Lookup(s1, Indices(q)) == if start <= q < start + 1 then Reflagged(Lookup(s, Indices(q)), flags) else Lookup(s, Indices(q));
    }
  }

  lemma ReflagsAppend(s: Space, s1: Space, s2: Space, start: nat, stop: nat, flags: Flags)
    requires start <= stop && Reflags(s, s1, start, stop, flags) && Reflags(s1, s2, stop, stop + 1, flags)
    ensures Reflags(s, s2, start, stop + 1, flags)
  {
    forall q: nat | CanonicalPage(q)
      ensures Lookup(s2, Indices(q)) ==
              if start <= q < stop + 1 then Reflagged(Lookup(s, Indices(q)), flags) else Lookup(s, Indices(q))
    {
      assert Lookup(s1, Indices(q)) == if start <= q < stop then Reflagged(Lookup(s, Indices(q)), flags) else Lookup(s, Indices(q));
    }
  }

  lemma ReflagsStay(s: Space, s1: Space, s2: Space, start: nat, stop: nat, flags: Flags)
    requires Reflags(s, s1, start, stop, flags) && Reflags(s1, s2, stop, stop, flags)
    ensures Reflags(s, s2, start, stop, flags)
  {
    forall q: nat | CanonicalPage(q)
      ensures Lookup(s2, Indices(q)) ==
              if start <= q < stop then Reflagged(Lookup(s, Indices(q)), flags) else Lookup(s, Indices(q))
    {
      assert Lookup(s2, Indices(q)) == Lookup(s1, Indices(q));
    }
  }

  /** Without huge pages the only way to stop is to run out of frames. */
  lemma StoppedEmpty(s: Space, idx: seq<nat>, flags: Flags, supply: Supply)
    requires RightsInv(s) && NoHuge(s) && ValidIndices(idx) && Present in flags && Fresh(s, supply)
    requires !SetPageFlags(s, idx, flags, supply).1
    ensures SetPageFlags(s, idx, flags, supply).2 == []
  {
    assert TableOk(s, s.root);
    DescendKeeps(s, s.root, idx, flags * PARENT_FLAGS, supply);
    TranslateByWalk(s.tables, s.root, idx);
    assert Lookup(s, idx) != HugePage;
  }

  lemma KeptJoin(s: Space, supply: Supply, s1: Space, left1: Supply, s2: Space, left2: Supply)
    requires Kept(s, supply, s1, left1) && Kept(s1, left1, s2, left2)
    ensures Kept(s, supply, s2, left2)
  {
    TakenJoin(supply, left1, left2);
    assert Elements(Taken(supply, left1) + Taken(left1, left2)) == Elements(Taken(supply, left1)) + Elements(Taken(left1, left2));
  }

  // --- Histories ------------------------------------------------------------------------------

  datatype Op = Map(page: nat, frame: nat, flags: Flags) | Protect(start: nat, end: nat, flags: Flags) {
    ghost predicate Valid() {
      && Present in flags
      && (Map? ==> CanonicalPage(page))
      && (Protect? ==> start <= end && CanonicalRange(start, end))
    }
  }

  datatype Outcome = MapOutcome(r: MapResult) | ProtectOutcome(stop: nat)

  ghost predicate Good(s: Space, supply: Supply) {
    RightsInv(s) && NoHuge(s) && Fresh(s, supply)
  }

  function Step(s: Space, op: Op, supply: Supply): (r: (Space, Outcome, Supply))
    requires Good(s, supply) && op.Valid()
  {
    match op
    case Map(page, frame, flags) =>
      var (s', r, left) := MapTo(s, Indices(page), frame, flags, supply);
      (s', MapOutcome(r), left)
    case Protect(start, end, flags) =>
      var (s', stop, left) := SetFlags(s, start, end, flags, supply);
      (s', ProtectOutcome(stop), left)
  }

  lemma StepGood(s: Space, op: Op, supply: Supply)
    requires Good(s, supply) && op.Valid()
    ensures var (s', _, left) := Step(s, op, supply); Good(s', left)
  {
    match op
    case Map(page, frame, flags) =>
      MapToRefines(s, Indices(page), frame, flags, supply);
      MapToRights(s, Indices(page), frame, flags, supply);
      var (s', r, left) := MapTo(s, Indices(page), frame, flags, supply);
      forall idx | ValidIndices(idx) ensures Lookup(s', idx) != HugePage {
        assert idx == Indices(page) || Lookup(s', idx) == Lookup(s, idx);
      }
      KeptFresh(s, supply, s', left);
    case Protect(start, end, flags) =>
      SetFlagsExact(s, start, end, flags, supply);
      var (s', stop, left) := SetFlags(s, start, end, flags, supply);
      KeptFresh(s, supply, s', left);
  }

  /** An operation, and the frames the allocator would have for it. */
  datatype Call = Call(op: Op, supply: Supply)

  ghost predicate Sound(s: Space) {
    RightsInv(s) && NoHuge(s)
  }

  /** Each call is possible when it is made: the frames it is offered are in no table. */
  ghost predicate Possible(s: Space, calls: seq<Call>)
    requires Sound(s)
    decreases |calls|
  {
    calls == [] ||
    (var Call(op, supply) := calls[0];
     op.Valid() && Fresh(s, supply) && (StepGood(s, op, supply); Possible(Step(s, op, supply).0, calls[1..])))
  }

  ghost function Run(s: Space, calls: seq<Call>): (r: (Space, seq<Outcome>))
    requires Sound(s) && Possible(s, calls)
    decreases |calls|
  {
    if calls == [] then (s, [])
    else
      var Call(op, supply) := calls[0];
      StepGood(s, op, supply);
      var (s1, o, _) := Step(s, op, supply);
      var (s', os) := Run(s1, calls[1..]);
      (s', [o] + os)
  }

  /** The specification of an address space: what each page maps to. */
  type Flat = map<nat, Entry>

  function FlatStep(m: Flat, op: Op, o: Outcome): (r: Flat) {
    match (op, o)
    case (Map(page, frame, flags), MapOutcome(Mapped)) => m[page := Entry(frame, flags)]
    case (Protect(start, _, flags), ProtectOutcome(stop)) =>
      map p | p in m :: if start <= p < stop then Entry(m[p].frame, flags) else m[p]
    case _ => m
  }

  function FlatRun(m: Flat, calls: seq<Call>, os: seq<Outcome>): (r: Flat)
    requires |calls| == |os|
    decreases |calls|
  {
    if calls == [] then m else FlatRun(FlatStep(m, calls[0].op, os[0]), calls[1..], os[1..])
  }

  ghost predicate Refines(s: Space, m: Flat) {
    forall q: nat {:trigger Lookup(s, Indices(q))} :: CanonicalPage(q) ==>
      Lookup(s, Indices(q)) == if q in m then Leaf(m[q]) else NotMapped
  }

  /** Every answer is the one the flat map predicts, and the flat map stays in step. */
  lemma StepRefines(s: Space, m: Flat, op: Op, supply: Supply)
    requires Good(s, supply) && op.Valid() && Refines(s, m)
    ensures var (s', o, left) := Step(s, op, supply); Refines(s', FlatStep(m, op, o))
    ensures op.Map? ==>
              var r := Step(s, op, supply).1.r;
              && (r.PageAlreadyMapped? <==> op.page in m) && r != MappedToHugePage
              && (r == FrameAllocationFailed ==> Step(s, op, supply).2 == [])
              && (r == Panicked ==> Huge in op.flags) && (r == Mapped ==> Huge !in op.flags)
  {
    var (s', o, left) := Step(s, op, supply);
    match op
    case Map(page, frame, flags) =>
      MapToRefines(s, Indices(page), frame, flags, supply);
      assert Lookup(s, Indices(page)) == if page in m then Leaf(m[page]) else NotMapped;
      forall q: nat | CanonicalPage(q) && q != page ensures Lookup(s', Indices(q)) == Lookup(s, Indices(q)) {
        if Indices(q) == Indices(page) {
          IndicesInjective(q, page);
        }
      }
    case Protect(start, end, flags) =>
      SetFlagsExact(s, start, end, flags, supply);
      forall q: nat | CanonicalPage(q)
        ensures Lookup(s', Indices(q)) ==
                if q in FlatStep(m, op, o) then Leaf(FlatStep(m, op, o)[q]) else NotMapped
      {
        assert Lookup(s, Indices(q)) == if q in m then Leaf(m[q]) else NotMapped;
      }
  }

  /** Over every history, with allocations failing at any point, the radix tree is the flat map and leaf flags are the rights in force. */
  lemma {:induction false} RunRefines(s: Space, m: Flat, calls: seq<Call>)
    requires Sound(s) && Possible(s, calls) && Refines(s, m)
    ensures
      var (s', os) := Run(s, calls);
      && |os| == |calls| && Refines(s', FlatRun(m, calls, os)) && Sound(s')
      && (forall q: nat {:trigger Indices(q)} :: CanonicalPage(q) && q in FlatRun(m, calls, os) ==>
            Effective(s'.tables, s'.root, Indices(q)) == FlatRun(m, calls, os)[q].flags * RIGHTS)
    decreases |calls|
  {
    if calls == [] {
      forall q: nat | CanonicalPage(q) && q in m ensures Effective(s.tables, s.root, Indices(q)) == m[q].flags * RIGHTS {
        assert Lookup(s, Indices(q)) == Leaf(m[q]);
        EffectiveIsLeaf(s, Indices(q));
      }
    } else {
      var Call(op, supply) := calls[0];
      var (s1, o, left) := Step(s, op, supply);
      StepGood(s, op, supply);
      StepRefines(s, m, op, supply);
      RunRefines(s1, FlatStep(m, op, o), calls[1..]);
      var (s', os) := Run(s1, calls[1..]);
      assert ([o] + os)[1..] == os;
    }
  }

  /** A cleared root table is the empty map. */
  lemma ClearedRoot(root: nat, tables: Tables, supply: Supply)
    requires root in tables && tables[root] == EmptyTable()
    requires forall k :: 0 <= k < |supply| ==> supply[k] != root
    requires Distinct(supply)
    ensures
      var s := Space(root, tables, map[root := []]);
      Good(s, supply) && Refines(s, map[])
  {
    var s := Space(root, tables, map[root := []]);
    forall f | f in s.path ensures TableOk(s, f) {
      forall i | 0 <= i < ENTRIES ensures EntryOk(s, f, i) {
        assert s.tables[f][i] == UNUSED;
      }
    }
    forall idx | ValidIndices(idx) ensures Lookup(s, idx) == NotMapped {
      EmptyNotMapped(tables, root, idx);
    }
  }

  lemma HugeEntryWidened(s: Space, f: nat, i: nat, flags: Flags, supply: Supply)
    requires f in s.tables && f in s.path && i < ENTRIES && flags <= PARENT_FLAGS && !s.tables[f][i].IsUnused()
    ensures NextTable(s, f, i, flags, supply).0.tables[f][i].flags == s.tables[f][i].flags + flags
    ensures NextTable(s, f, i, flags, supply).0 == s <==> flags <= s.tables[f][i].flags
  {
    var e := s.tables[f][i];
    assert s.tables[f][i := e] == s.tables[f];
    assert flags <= e.flags ==> s.tables[f := s.tables[f][i := e]] == s.tables;
    assert !(flags <= e.flags) ==> e.flags + flags != e.flags;
  }

  /** Every entry on the way grants the rights, down to the first huge one. */
  predicate GrantedOnWay(tables: Tables, f: nat, idx: seq<nat>, flags: Flags)
    requires forall k :: 0 <= k < |idx| ==> idx[k] < ENTRIES
    decreases |idx|
  {
    |idx| <= 1 || f !in tables ||
    (var e := tables[f][idx[0]];
     flags <= e.flags && (Huge in e.flags || GrantedOnWay(tables, e.frame, idx[1..], flags)))
  }

  lemma {:induction false} HugeDescentStaysIff(s: Space, f: nat, idx: seq<nat>, flags: Flags, supply: Supply)
    requires CanDescend(s, f, idx, flags, supply) && Descend(s, f, idx, flags, supply).1 == HitHuge
    ensures Descend(s, f, idx, flags, supply).0 == s <==> GrantedOnWay(s.tables, f, idx, flags)
    decreases |idx|
  {
    var i := idx[0];
    DescendKeeps(s, f, idx, flags, supply);
    StepDescends(s, f, idx, flags, supply);
    assert WalkTo(s.tables, f, idx) == HitHuge && !s.tables[f][i].IsUnused();
    HugeEntryWidened(s, f, i, flags, supply);
    var (s1, r1, left1) := NextTable(s, f, i, flags, supply);
    if r1.Table? {
      DescendKeeps(s1, r1.frame, idx[1..], flags, left1);
      if s1 == s {
        HugeDescentStaysIff(s1, r1.frame, idx[1..], flags, left1);
      } else {
        assert SameTable(s1, Descend(s1, r1.frame, idx[1..], flags, left1).0, f);
      }
    }
  }

  /**
    Where `map_to` runs into a huge page it reports failure, but has already widened the entries
    on the way, the huge one included: the failed call is free of effect exactly when they all
    granted the rights before.
   */
  lemma HugeMapStaysIff(s: Space, idx: seq<nat>, frame: nat, flags: Flags, supply: Supply)
    requires Valid(s) && ValidIndices(idx) && Fresh(s, supply) && Present in flags
    requires MapTo(s, idx, frame, flags, supply).1 == MappedToHugePage
    ensures MapTo(s, idx, frame, flags, supply).0 == s <==> GrantedOnWay(s.tables, s.root, idx, flags * PARENT_FLAGS)
  {
    assert TableOk(s, s.root);
    HugeDescentStaysIff(s, s.root, idx, flags * PARENT_FLAGS, supply);
  }
}
