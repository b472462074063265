/** Address spaces: a page table, and the proxy that owns its frames. */
module AddressSpaces {
  import opened VirtualMemory
  import opened Sequences
  import opened PageTable
  import opened PageRights
  import PageRuns
  import opened FrameView
  import opened Ownership
  import opened Paging
  import FA = FrameAllocator
  import Ledger

  datatype PagesResult = AllMapped | Failed(r: MapResult) | OutOfMemory

  class AddressSpace {
    const memory: Memory
    const proxy: FrameAllocatorProxy
    const table: Level4PageTable

    ghost predicate Valid()
      reads this, memory, proxy, proxy.global, proxy.global.bitmap, table
    {
      && table.memory == memory && proxy.Valid()
      && Good(table.View()) && Owns(table.View(), proxy.allocatedFrames)
    }

    /** Allocate and clear a root table. */
    constructor (memory: Memory, global: FA.FrameAllocator)
      requires global.Valid() && CountFree(global.State().view) > 0
      modifies memory, global, global.bitmap
      ensures Valid() && this.memory == memory && proxy.global == global && fresh(proxy) && fresh(table)
      ensures Unmapped(table.View())
      ensures proxy.allocatedFrames == [table.root] && table.path == map[table.root := []]
      ensures RootMade(old(memory.tables), old(global.State()), table.root, memory.tables, global.State())
      ensures Taking(old(global.State()).view, global.State().view, proxy.allocatedFrames)
    {
      var p, t := NewTable(memory, global);
      ghost var s, fs := t.View(), global.State();
      this.memory := memory;
      proxy := p;
      table := t;
      new;
      assert table.View() == s && proxy.global.State() == fs;
    }

    static method NewTable(memory: Memory, global: FA.FrameAllocator) returns (p: FrameAllocatorProxy, t: Level4PageTable)
      requires global.Valid() && CountFree(global.State().view) > 0
      modifies memory, global, global.bitmap
      ensures fresh(p) && p.Valid() && p.global == global && fresh(t) && t.memory == memory
      ensures Good(t.View()) && Owns(t.View(), p.allocatedFrames) && Unmapped(t.View())
      ensures p.allocatedFrames == [t.root] && t.path == map[t.root := []]
      ensures RootMade(old(memory.tables), old(global.State()), t.root, memory.tables, global.State())
      ensures Taking(old(global.State()).view, global.State().view, p.allocatedFrames)
    {
      var root;
      p, root := NewRoot(memory, global);
      NewSpace(root, memory.tables);
      ghost var s, fs := Space(root, memory.tables, map[root := []]), global.State();
      t := new Level4PageTable(memory, root);
      assert t.View() == s && p.global.State() == fs && p.Valid();
    }

    /** The first frame of a new proxy becomes a cleared table. */
    static method NewRoot(memory: Memory, global: FA.FrameAllocator) returns (p: FrameAllocatorProxy, root: nat)
      requires global.Valid() && CountFree(global.State().view) > 0
      modifies memory, global, global.bitmap
      ensures fresh(p) && p.Valid() && p.global == global && p.allocatedFrames == [root]
      ensures Drawn(old(global.State()), global.State(), [root])
      ensures memory.tables == old(memory.tables)[root := EmptyTable()]
    {
      p := new FrameAllocatorProxy(global);
      var frame := p.AllocateFrame();
      root := frame.value;
      memory.tables := memory.tables[root := EmptyTable()];
      assert p.allocatedFrames == [root];
    }

    /** The body of the `map_pages` loop; `m` is the answer of `map_to`, if it comes to that. */
    method MapPage(page: nat, flags: Flags) returns (r: PagesResult, ghost taken: seq<nat>, ghost m: MapResult)
      requires Valid() && Present in flags
      modifies table`path, memory, proxy, proxy.global, proxy.global.bitmap
      ensures Valid() && PageMapped(old(table.View()), table.View(), Indices(page), flags, r, taken)
      ensures r == OutOfMemory <==> taken == []
      ensures taken == [] ==> table.View() == old(table.View()) && proxy.global.State() == old(proxy.global.State())
      ensures taken != [] ==> PageAdded(old(table.View()), old(proxy.global.State()), Indices(page), flags, taken[0], taken[1..],
                                        table.View(), proxy.global.State(), m)
      ensures r == OutOfMemory || r == Failed(FrameAllocationFailed) ==> CountFree(proxy.global.State().view) == 0
      ensures proxy.allocatedFrames == old(proxy.allocatedFrames) + taken
      ensures Taking(old(proxy.global.State()).view, proxy.global.State().view, taken)
    {
      ghost var s0, fs0, owned := table.View(), proxy.global.State(), proxy.allocatedFrames;
      taken := [];
      m := FrameAllocationFailed;
      assert owned + [] == owned;
      var frame := proxy.AllocateFrame();
      if frame.None? {
        return OutOfMemory, [], m;
      }
      ghost var fs1 := proxy.global.State();
      MarkedTables(s0, owned, fs0.view, fs1.view, frame.value);
      var answer;
      ghost var more;
      answer, more := table.MapTo(page, frame.value, flags, proxy);
      taken, m := [frame.value] + more, answer;
      MapPageKeeps(s0, owned, Indices(page), frame.value, flags, more);
      DrawnJoin(fs0, fs1, proxy.global.State(), [frame.value], more);
      AppendAssoc(owned, [frame.value], more);
      assert taken[1..] == more;
      match answer
      case Mapped => r := AllMapped;
      case PageAlreadyMapped(to) => r := if to == frame.value then AllMapped else Failed(answer);
      case _ => r := Failed(answer);
    }

    /**
      Map the pages `start..end` to new frames.  The result counts as success even for pages
      that were mapped before; those keep their old frame.
     */
    method MapPages(start: nat, end: nat, flags: Flags) returns (r: PagesResult, ghost stop: nat, ghost taken: seq<nat>)
      requires Valid() && Present in flags && start <= end && PageRuns.CanonicalRange(start, end)
      modifies table`path, memory, proxy, proxy.global, proxy.global.bitmap
      ensures Valid() && start <= stop <= end && (r == AllMapped <==> stop == end)
      ensures RangeMapped(old(table.View()), table.View(), start, stop, flags, taken)
      ensures r.Failed? ==> r.r == FrameAllocationFailed || (r.r == Panicked && Huge in flags)
      ensures r == OutOfMemory || r == Failed(FrameAllocationFailed) ==> CountFree(proxy.global.State().view) == 0
      ensures proxy.allocatedFrames == old(proxy.allocatedFrames) + taken
      ensures Worked(old(table.View()), old(proxy.allocatedFrames), old(proxy.global.State()).view,
                     table.View(), proxy.global.State().view, taken)
    {
      stop := start;
      taken := [];
      var page := start;
      assert proxy.allocatedFrames + taken == proxy.allocatedFrames;
      while page < end
        invariant start <= page <= end && stop == page
        invariant Valid() && RangeMapped(old(table.View()), table.View(), start, page, flags, taken)
        invariant proxy.allocatedFrames == old(proxy.allocatedFrames) + taken
        invariant Taking(old(proxy.global.State()).view, proxy.global.State().view, taken)
      {
        ghost var s1, v1 := table.View(), proxy.global.State().view;
        ghost var more, answer;
        r, more, answer := MapPage(page, flags);
        RangeStep(old(table.View()), s1, table.View(), start, page, flags, r, taken, more);
        TakingJoin(old(proxy.global.State()).view, v1, proxy.global.State().view, taken, more);
        AppendAssoc(old(proxy.allocatedFrames), taken, more);
        taken := taken + more;
        if r != AllMapped {
          return;
        }
        page := page + 1;
        stop := page;
      }
      r := AllMapped;
    }

    /** `set_flags`: new flags for the mapped pages of the range, every page keeps its frame. */
    method SetFlags(start: nat, end: nat, flags: Flags) returns (stop: nat, ghost taken: seq<nat>)
      requires Valid() && Present in flags && start <= end && PageRuns.CanonicalRange(start, end)
      modifies table`path, memory, proxy, proxy.global, proxy.global.bitmap
      ensures Valid() && start <= stop <= end && PageRuns.Reflags(old(table.View()), table.View(), start, stop, flags)
      ensures stop < end ==> CountFree(proxy.global.State().view) == 0
      ensures proxy.allocatedFrames == old(proxy.allocatedFrames) + taken
      ensures Worked(old(table.View()), old(proxy.allocatedFrames), old(proxy.global.State()).view,
                     table.View(), proxy.global.State().view, taken)
    {
      ghost var s, owned, v := table.View(), proxy.allocatedFrames, proxy.global.State().view;
      assert table.Valid(proxy);
      stop, taken := table.SetFlags(start, end, flags, proxy);
      assert forall f :: f in taken ==> !v[f];
      RewrittenOwns(s, owned, table.View(), taken);
    }

    /** Dropping a space gives back its frames and no others; memory is not touched. */
    method Drop()
      requires Valid()
      modifies proxy, proxy.global, proxy.global.bitmap
      ensures proxy.Valid() && proxy.allocatedFrames == []
      ensures proxy.global.State() == Ledger.Release(old(proxy.global.State()), old(proxy.allocatedFrames))
      ensures |proxy.global.State().view| == |old(proxy.global.State()).view|
      ensures forall f: nat :: f < |proxy.global.State().view| ==>
                (proxy.global.State().view[f] <==> old(proxy.global.State()).view[f] && f !in old(proxy.allocatedFrames))
    {
      Ledger.ReleaseExact(proxy.global.State(), proxy.allocatedFrames);
      proxy.Drop();
    }

    // --- Beside other spaces -----------------------------------------------------------------

    /** No frame of one space, table or data, belongs to the other. */
    ghost predicate ApartFrom(other: AddressSpace)
      reads this, proxy, other, other.proxy
    {
      && memory == other.memory && proxy.global == other.proxy.global && proxy != other.proxy && table != other.table
      && forall f :: f in proxy.allocatedFrames ==> f !in other.proxy.allocatedFrames
    }

    /** A space appears beside any others: they keep their tables, rights and translations. */
    static method CreateBeside(memory: Memory, global: FA.FrameAllocator, ghost others: set<AddressSpace>)
      returns (a: AddressSpace)
      requires global.Valid() && CountFree(global.State().view) > 0
      requires forall o <- others :: o.Valid() && o.memory == memory && o.proxy.global == global
      modifies memory, global, global.bitmap
      ensures fresh(a) && a.Valid() && a.memory == memory && a.proxy.global == global && Unmapped(a.table.View())
      ensures Taking(old(global.State()).view, global.State().view, a.proxy.allocatedFrames)
      ensures forall o <- others :: o.Valid() && a.ApartFrom(o)
      ensures forall o <- others :: SameLookups(old(o.table.View()), o.table.View())
    {
      ghost var tables, v := memory.tables, global.State().view;
      a := new AddressSpace(memory, global);
      forall o | o in others
        ensures o.Valid() && a.ApartFrom(o) && SameLookups(old(o.table.View()), o.table.View())
      {
        OtherMarked(v, global.State().view, a.proxy.allocatedFrames, o.proxy.allocatedFrames);
        OtherKept(tables, memory.tables, a.proxy.allocatedFrames, old(o.table.View()), o.proxy.allocatedFrames);
      }
    }

    /** Whatever one space maps, the others keep their tables, their rights and their translations. */
    method MapPagesBeside(start: nat, end: nat, flags: Flags, ghost others: set<AddressSpace>) returns (r: PagesResult)
      requires Valid() && Present in flags && start <= end && PageRuns.CanonicalRange(start, end)
      requires forall o <- others :: o.Valid() && ApartFrom(o)
      modifies table`path, memory, proxy, proxy.global, proxy.global.bitmap
      ensures Valid() && forall o <- others :: o.Valid() && ApartFrom(o)
      ensures forall o <- others :: SameLookups(old(o.table.View()), o.table.View())
    {
      ghost var s, owned, v := table.View(), proxy.allocatedFrames, proxy.global.State().view;
      ghost var stop, taken;
      r, stop, taken := MapPages(start, end, flags);
      forall o | o in others
        ensures o.Valid() && ApartFrom(o) && SameLookups(old(o.table.View()), o.table.View())
      {
        OtherUndisturbed(s, owned, v, table.View(), proxy.global.State().view, taken,
                         old(o.table.View()), o.proxy.allocatedFrames);
      }
    }

    /** Likewise for a protection change. */
    method SetFlagsBeside(start: nat, end: nat, flags: Flags, ghost others: set<AddressSpace>) returns (stop: nat)
      requires Valid() && Present in flags && start <= end && PageRuns.CanonicalRange(start, end)
      requires forall o <- others :: o.Valid() && ApartFrom(o)
      modifies table`path, memory, proxy, proxy.global, proxy.global.bitmap
      ensures Valid() && forall o <- others :: o.Valid() && ApartFrom(o)
      ensures forall o <- others :: SameLookups(old(o.table.View()), o.table.View())
      ensures start <= stop <= end && PageRuns.Reflags(old(table.View()), table.View(), start, stop, flags)
    {
      ghost var s, owned, v := table.View(), proxy.allocatedFrames, proxy.global.State().view;
      ghost var taken;
      stop, taken := SetFlags(start, end, flags);
      forall o | o in others
        ensures o.Valid() && ApartFrom(o) && SameLookups(old(o.table.View()), o.table.View())
      {
        OtherUndisturbed(s, owned, v, table.View(), proxy.global.State().view, taken,
                         old(o.table.View()), o.proxy.allocatedFrames);
      }
    }

    /** Dropping a space beside others takes no frame from them and changes none of their tables. */
    method DropBeside(ghost others: set<AddressSpace>)
      requires Valid() && forall o <- others :: o.Valid() && ApartFrom(o)
      modifies proxy, proxy.global, proxy.global.bitmap
      ensures proxy.Valid() && proxy.allocatedFrames == []
      ensures forall o <- others :: o.Valid() && o.table.View() == old(o.table.View())
      ensures |proxy.global.State().view| == |old(proxy.global.State()).view|
      ensures forall f: nat :: f < |proxy.global.State().view| ==>
                (proxy.global.State().view[f] <==> old(proxy.global.State()).view[f] && f !in old(proxy.allocatedFrames))
    {
      ghost var v, owned := proxy.global.State().view, proxy.allocatedFrames;
      Drop();
      forall o | o in others ensures o.Valid() && o.table.View() == old(o.table.View()) {
        assert old(o.Valid()) && o.table.View() == old(o.table.View());
        OtherStillMarked(v, proxy.global.State().view, owned, o.proxy.allocatedFrames);
      }
    }
  }

  /** A new space on memory and allocator. */
  ghost predicate RootMade(tables: Tables, fs: Frames, root: nat, tables': Tables, fs': Frames) {
    Handed(fs, fs', [root]) && tables' == tables[root := EmptyTable()]
  }

  /** One page of `map_pages` on tables and allocator: a frame for the page, then those that `map_to` had to allocate. */
  ghost predicate PageAdded(s: Space, fs: Frames, idx: seq<nat>, flags: Flags, frame: nat, more: seq<nat>,
                            s': Space, fs': Frames, r: MapResult)
  {
    && ValidIndices(idx) && Present in flags && Handed(fs, fs', [frame] + more)
    && (r == FrameAllocationFailed ==> CountFree(fs'.view) == 0)
    && Good(s) && Fresh(s, more) && MapTo(s, idx, frame, flags, more) == (s', r, [])
  }

  /**
    What any operation on a space does: it takes the free frames `taken`, its own tree stays
    sound, and memory outside its own tables is as before.
   */
  ghost predicate Worked(s: Space, owned: seq<nat>, v: View, s': Space, v': View, taken: seq<nat>) {
    && Good(s') && Owns(s', owned + taken) && s'.root == s.root && Taking(v, v', taken)
    && (forall g :: g in s.tables && g !in s'.path ==> g in s'.tables && s'.tables[g] == s.tables[g])
  }

  lemma OtherMarked(v: View, v': View, taken: seq<nat>, others: seq<nat>)
    requires Taking(v, v', taken) && AllMarked(v, others)
    ensures AllMarked(v', others) && forall f :: f in taken ==> f !in others
  {
    forall f | f in others ensures v'[f] && f !in taken {
      assert v[f];
    }
  }

  lemma OtherStillMarked(v: View, v': View, freed: seq<nat>, others: seq<nat>)
    requires AllMarked(v, others) && |v'| == |v| && forall f :: f in freed ==> f !in others
    requires forall f: nat :: f < |v'| ==> (v'[f] <==> v[f] && f !in freed)
    ensures AllMarked(v', others)
  {
  }

  /** One space at work leaves every space with other frames as it was. */
  lemma OtherUndisturbed(s: Space, owned: seq<nat>, v: View, s': Space, v': View, taken: seq<nat>, t: Space, others: seq<nat>)
    requires Worked(s, owned, v, s', v', taken) && Good(t) && Owns(t, others) && t.tables == s.tables
    requires AllMarked(v, others) && forall f :: f in owned ==> f !in others
    ensures AllMarked(v', others) && forall f :: f in owned + taken ==> f !in others
    ensures
      var t' := Space(t.root, s'.tables, t.path);
      Good(t') && Owns(t', others) && SameLookups(t, t')
  {
    OtherMarked(v, v', taken, others);
    forall g | g in s.tables && g !in owned + taken ensures g in s'.tables && s'.tables[g] == s.tables[g] {
      assert g !in s'.path;
    }
    OtherKept(s.tables, s'.tables, owned + taken, t, others);
  }

  lemma RewrittenOwns(s: Space, owned: seq<nat>, s': Space, taken: seq<nat>)
    requires Owns(s, owned) && PageTable.Valid(s') && PageRuns.Rewritten(s, s', taken)
    requires Distinct(taken) && forall f :: f in taken ==> f !in owned
    ensures Owns(s', owned + taken)
  {
    DistinctAppend(owned, taken);
    forall idx | ValidIndices(idx) && Lookup(s', idx).Leaf?
      ensures Lookup(s, idx).Leaf? && Lookup(s', idx).entry.frame == Lookup(s, idx).entry.frame
      ensures Lookup(s', idx).entry.frame in owned + taken && Lookup(s', idx).entry.frame !in s'.path
    {
      assert PageRuns.SameFrame(Lookup(s, idx), Lookup(s', idx));
    }
  }

  ghost predicate SameLookups(s: Space, s': Space) {
    forall idx {:trigger Lookup(s', idx)} :: ValidIndices(idx) ==> Lookup(s', idx) == Lookup(s, idx)
  }

  /** A space depends on its own tables only. */
  lemma SpaceKept(s: Space, tables': Tables, owned: seq<nat>)
    requires Good(s) && Owns(s, owned)
    requires forall g :: g in s.path ==> g in tables' && g in s.tables && tables'[g] == s.tables[g]
    ensures
      var s' := Space(s.root, tables', s.path);
      Good(s') && Owns(s', owned) && SameLookups(s, s')
  {
    var s' := Space(s.root, tables', s.path);
    forall g | g in s.path ensures TableGrows(s, tables', g) && TableOk(s', g) {
      assert TableOk(s, g);
      if |s.path[g]| < 3 {
        forall i | 0 <= i < ENTRIES ensures EntryOk(s', g, i) {
          assert EntryOk(s, g, i);
        }
      }
    }
    forall idx | ValidIndices(idx) ensures Lookup(s', idx) == Lookup(s, idx) {
      GrowthKeepsFrom(s, tables', s.root, idx);
    }
    SpaceKeptRights(s, tables');
  }

  /** Memory that changes only in frames of `owned` leaves a space without such frames alone. */
  lemma OtherKept(tables: Tables, tables': Tables, owned: seq<nat>, t: Space, others: seq<nat>)
    requires Good(t) && Owns(t, others) && t.tables == tables
    requires forall f :: f in owned ==> f !in others
    requires forall g :: g in tables && g !in owned ==> g in tables' && tables'[g] == tables[g]
    ensures
      var t' := Space(t.root, tables', t.path);
      Good(t') && Owns(t', others) && SameLookups(t, t')
  {
    forall g | g in t.path ensures g in tables' && g in t.tables && tables'[g] == t.tables[g] {
      assert TableOk(t, g) && g in others;
    }
    SpaceKept(t, tables', others);
  }

  lemma SpaceKeptRights(s: Space, tables': Tables)
    requires Good(s) && PageTable.Valid(Space(s.root, tables', s.path)) && SameLookups(s, Space(s.root, tables', s.path))
    requires forall g {:trigger TableGrows(s, tables', g)} :: g in s.path ==> TableGrows(s, tables', g)
    requires forall g :: g in s.path ==> g in tables' && g in s.tables && tables'[g] == s.tables[g]
    ensures Good(Space(s.root, tables', s.path))
  {
    var s' := Space(s.root, tables', s.path);
    forall f, i | f in s'.path && f in s'.tables && |s'.path[f]| < 3 && 0 <= i < ENTRIES ensures CleanAt(s', f, i) {
      assert CleanAt(s, f, i);
    }
    forall idx | ValidIndices(idx) && Lookup(s', idx).Leaf?
      ensures Lookup(s', idx).entry.flags * PARENT_FLAGS <= Above(s'.tables, s'.root, idx)
    {
      assert Lookup(s', idx) == Lookup(s, idx);
      AboveGrows(s, tables', s.root, idx);
    }
    forall idx | ValidIndices(idx) ensures Lookup(s', idx) != HugePage {
      assert Lookup(s, idx) != HugePage;
    }
  }

  /**
    Dropping the proxy returns its frames to what they were before the space took them, and the
    bitmap as a whole exactly if the other frames are as they were.
   */
  lemma DropRestores(before: View, now: Frames, owned: seq<nat>)
    requires FrameView.Inv(now) && |before| == |now.view| && forall f :: f in owned ==> f < |before| && !before[f]
    ensures
      var after := Ledger.Release(now, owned).view;
      && |after| == |before|
      && (forall f: nat :: f < |before| ==> after[f] == if f in owned then before[f] else now.view[f])
      && (after == before <==> forall f: nat :: f < |before| && f !in owned ==> now.view[f] == before[f])
  {
    Ledger.ReleaseExact(now, owned);
    var after := Ledger.Release(now, owned).view;
    assert forall f: nat :: f < |before| ==> after[f] == if f in owned then before[f] else now.view[f];
  }

  /** Pages reached and not mapped before now have a frame of their own out of `taken`. */
  ghost predicate RangeMapped(s: Space, s': Space, start: nat, stop: nat, flags: Flags, taken: seq<nat>) {
    && (forall q: nat {:trigger Lookup(s', Indices(q))} :: CanonicalPage(q) ==>
          if start <= q < stop && !Lookup(s, Indices(q)).Leaf?
          then Lookup(s', Indices(q)).Leaf? && Lookup(s', Indices(q)).entry.flags == flags && Lookup(s', Indices(q)).entry.frame in taken
          else Lookup(s', Indices(q)) == Lookup(s, Indices(q)))
    && (forall g :: g in s.path ==> g in s'.path)
    && (forall g :: g in s.tables && g !in s'.path ==> g in s'.tables && s'.tables[g] == s.tables[g])
  }

  lemma RangeStep(s: Space, s1: Space, s2: Space, start: nat, page: nat, flags: Flags, r: PagesResult, taken: seq<nat>, more: seq<nat>)
    requires start <= page && CanonicalPage(page) && RangeMapped(s, s1, start, page, flags, taken)
    requires PageMapped(s1, s2, Indices(page), flags, r, more)
    requires forall g :: g in s1.path ==> g in s2.path
    ensures RangeMapped(s, s2, start, if r == AllMapped then page + 1 else page, flags, taken + more)
  {
    forall q: nat | CanonicalPage(q) && q != page ensures Lookup(s2, Indices(q)) == Lookup(s1, Indices(q)) {
      if Indices(q) == Indices(page) {
        IndicesInjective(q, page);
      }
    }
    assert Lookup(s1, Indices(page)) == Lookup(s, Indices(page));
  }

  ghost predicate Unmapped(s: Space) {
    forall idx {:trigger Lookup(s, idx)} :: ValidIndices(idx) ==> Lookup(s, idx) == NotMapped
  }

  lemma NewSpace(root: nat, tables: Tables)
    requires root in tables && tables[root] == EmptyTable()
    ensures
      var s := Space(root, tables, map[root := []]);
      Good(s) && Owns(s, [root]) && Unmapped(s)
  {
    PageRuns.ClearedRoot(root, tables, []);
    var s := Space(root, tables, map[root := []]);
    forall idx | ValidIndices(idx) ensures Lookup(s, idx) == NotMapped {
      EmptyNotMapped(tables, root, idx);
    }
  }

  /** One page of `map_pages`: a page already mapped is passed over without a word. */
  ghost predicate PageMapped(s: Space, s': Space, idx: seq<nat>, flags: Flags, r: PagesResult, taken: seq<nat>)
    requires ValidIndices(idx)
  {
    && (forall j {:trigger Lookup(s', j)} :: ValidIndices(j) && (j != idx || r != AllMapped) ==> Lookup(s', j) == Lookup(s, j))
    && (r == AllMapped ==>
          if Lookup(s, idx).Leaf? then Lookup(s', idx) == Lookup(s, idx)
          else taken != [] && Lookup(s', idx) == Leaf(Entry(taken[0], flags)))
    && (r.Failed? ==> (r.r == FrameAllocationFailed || (r.r == Panicked && Huge in flags)) && Lookup(s, idx) == NotMapped)
    && (forall g :: g in s.path ==> g in s'.path)
    && (forall g :: g in s.tables && g !in s'.path ==> g in s'.tables && s'.tables[g] == s.tables[g])
  }

  lemma MarkedTables(s: Space, owned: seq<nat>, v: View, v1: View, frame: nat)
    requires Owns(s, owned) && AllMarked(v, owned) && |v| == MAX_FRAMES && Taking(v, v1, [frame])
    ensures frame !in owned && forall g :: g in s.path ==> g < MAX_FRAMES && v1[g]
  {
    assert frame in [frame];
  }

  lemma MapPageKeeps(s: Space, owned: seq<nat>, idx: seq<nat>, frame: nat, flags: Flags, more: seq<nat>)
    requires Good(s) && Owns(s, owned) && ValidIndices(idx) && Present in flags
    requires Fresh(s, more) && Distinct(owned + [frame] + more) && MapTo(s, idx, frame, flags, more).2 == []
    ensures
      var (s', r, _) := MapTo(s, idx, frame, flags, more);
      && Good(s') && Owns(s', owned + [frame] + more)
      && PageMapped(s, s', idx, flags,
                    if r == Mapped || r == PageAlreadyMapped(frame) then AllMapped else Failed(r), [frame] + more)
      && (r.PageAlreadyMapped? ==> r.to == frame)
  {
    MapToRefines(s, idx, frame, flags, more);
    MapToRights(s, idx, frame, flags, more);
    MapToOwns(s, owned, idx, frame, flags, more);
    assert Taken(more, []) == more;
    var (s', r, _) := MapTo(s, idx, frame, flags, more);
    forall j | ValidIndices(j) ensures Lookup(s', j) != HugePage {
      assert j == idx || Lookup(s', j) == Lookup(s, j);
      assert Lookup(s, j) != HugePage;
    }
  }
}
