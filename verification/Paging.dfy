/**
  Page tables in physical memory, and the frame allocator's proxies that supply their frames.
  Tables live in one shared memory addressed by frame; each space keeps its own root.
 */
module Paging {
  import opened VirtualMemory
  import opened Sequences
  import opened PageTable
  import opened PageRights
  import PageRuns
  import opened FrameView
  import FA = FrameAllocator
  import Ledger
  import opened Options

  /** The frames that hold page tables. */
  class Memory {
    var tables: Tables

    constructor () {
      tables := map[];
    }
  }

  /** Hands out frames of the global allocator and remembers them for its drop. */
  class FrameAllocatorProxy {
    const global: FA.FrameAllocator
    var allocatedFrames: seq<nat>

    constructor (global: FA.FrameAllocator)
      requires global.Valid()
      ensures Valid() && this.global == global && allocatedFrames == []
    {
      this.global := global;
      allocatedFrames := [];
    }

    ghost predicate Valid()
      reads this, global, global.bitmap
    {
      global.Valid() && Distinct(allocatedFrames) && AllMarked(global.State().view, allocatedFrames)
    }

    method AllocateFrame() returns (r: Option<nat>)
      requires Valid()
      modifies this, global, global.bitmap
      ensures Valid() && global.State() == Allocate(old(global.State())).0
      ensures r.None? <==> CountFree(old(global.State()).view) == 0
      ensures r.None? ==> allocatedFrames == old(allocatedFrames) && global.State() == old(global.State())
      ensures r.Some? ==>
                && Drawn(old(global.State()), global.State(), [r.value])
                && allocatedFrames == old(allocatedFrames) + [r.value]
    {
      AllocateTakes(global.State(), allocatedFrames);
      var f := global.Allocate();
      if f == MAX_FRAMES {
        return None;
      }
      allocatedFrames := allocatedFrames + [f];
      r := Some(f);
    }

    /** Give every frame back, in the order they were taken. */
    method Drop()
      requires Valid()
      modifies this, global, global.bitmap
      ensures Valid() && allocatedFrames == []
      ensures global.State() == Ledger.Release(old(global.State()), old(allocatedFrames))
    {
      ghost var all := allocatedFrames;
      while allocatedFrames != []
        invariant global.Valid()
        invariant Ledger.Release(global.State(), allocatedFrames) == Ledger.Release(old(global.State()), all)
        decreases |allocatedFrames|
      {
        var frame := allocatedFrames[0];
        allocatedFrames := allocatedFrames[1..];
        DeallocateInv(global.State(), frame);
        var _ := global.Deallocate(frame);
      }
    }
  }

  /** An allocation takes one frame that was free, or fails because none was. */
  lemma AllocateTakes(s: Frames, owned: seq<nat>)
    requires Inv(s) && Distinct(owned) && AllMarked(s.view, owned)
    ensures
      var (s', f) := Allocate(s);
      && Inv(s') && |s'.view| == |s.view| && f <= |s.view|
      && (f == |s.view| <==> CountFree(s.view) == 0)
      && (f == |s.view| ==> s' == s)
      && (f < |s.view| ==> Drawn(s, s', [f]) && Distinct(owned + [f]) && AllMarked(s'.view, owned + [f]))
  {
    AllocateLowest(s);
    CountZero(s.view);
    var (s', f) := Allocate(s);
    if f < |s.view| {
      HandedOne(s);
      DistinctFresh(owned, f);
    }
  }

  ghost predicate AllMarked(v: View, fs: seq<nat>) {
    forall f :: f in fs ==> f < |v| && v[f]
  }

  /** Exactly the frames `taken`, free before, are used afterwards. */
  ghost predicate Taking(v: View, v': View, taken: seq<nat>) {
    && |v'| == |v| && Distinct(taken)
    && (forall f :: f in taken ==> f < |v| && !v[f])
    && (forall f {:trigger v'[f]} :: 0 <= f < |v| ==> (v'[f] <==> v[f] || f in taken))
  }

  /** `taken` are the frames that one allocation after the other returns. */
  ghost predicate Handed(fs: Frames, fs': Frames, taken: seq<nat>)
    decreases |taken|
  {
    if taken == [] then fs' == fs
    else
      && fs.hint <= |fs.view|
      && var (fs1, f) := Allocate(fs);
         f == taken[0] < |fs.view| && Handed(fs1, fs', taken[1..])
  }

  ghost predicate Drawn(fs: Frames, fs': Frames, taken: seq<nat>) {
    Handed(fs, fs', taken) && Taking(fs.view, fs'.view, taken)
  }

  lemma HandedOne(fs: Frames)
    requires fs.hint <= |fs.view| && Allocate(fs).1 < |fs.view|
    ensures Handed(fs, Allocate(fs).0, [Allocate(fs).1])
  {
    assert [Allocate(fs).1][1..] == [];
  }

  lemma {:induction false} HandedJoin(a: Frames, b: Frames, c: Frames, x: seq<nat>, y: seq<nat>)
    requires Handed(a, b, x) && Handed(b, c, y)
    ensures Handed(a, c, x + y)
    decreases |x|
  {
    if x == [] {
      assert x + y == y;
    } else {
      HandedJoin(Allocate(a).0, b, c, x[1..], y);
      assert (x + y)[1..] == x[1..] + y;
    }
  }

  lemma DrawnJoin(a: Frames, b: Frames, c: Frames, x: seq<nat>, y: seq<nat>)
    requires Drawn(a, b, x) && Drawn(b, c, y)
    ensures Drawn(a, c, x + y)
  {
    HandedJoin(a, b, c, x, y);
    TakingJoin(a.view, b.view, c.view, x, y);
  }

  /** Repeated allocation takes free frames, each once, and keeps the allocator's invariant. */
  lemma {:induction false} HandedTakes(fs: Frames, fs': Frames, taken: seq<nat>)
    requires Inv(fs) && Handed(fs, fs', taken)
    ensures Inv(fs') && Taking(fs.view, fs'.view, taken)
    decreases |taken|
  {
    if taken == [] {
    } else {
      AllocateLowest(fs);
      var fs1 := Allocate(fs).0;
      HandedTakes(fs1, fs', taken[1..]);
      assert Taking(fs.view, fs1.view, [taken[0]]);
      TakingJoin(fs.view, fs1.view, fs'.view, [taken[0]], taken[1..]);
      assert [taken[0]] + taken[1..] == taken;
    }
  }

  lemma TakingJoin(v: View, v1: View, v2: View, a: seq<nat>, b: seq<nat>)
    requires Taking(v, v1, a) && Taking(v1, v2, b)
    ensures Taking(v, v2, a + b)
  {
    forall f | f in a ensures f !in b {
      assert v1[f];
    }
    DistinctAppend(a, b);
    forall f | f in a + b ensures f < |v| && !v[f] {
      assert f in b ==> !v1[f];
    }
  }

  class Level4PageTable {
    const memory: Memory
    const root: nat
    ghost var path: map<nat, seq<nat>>

    /** Take over a cleared table as the root. */
    constructor (memory: Memory, root: nat)
      ensures this.memory == memory && this.root == root && path == map[root := []]
    {
      this.memory := memory;
      this.root := root;
      path := map[root := []];
    }

    ghost function View(): (s: Space)
      reads this, memory
    {
      Space(root, memory.tables, path)
    }

    /** Tables are known to the allocator as used frames. */
    ghost predicate Valid(proxy: FrameAllocatorProxy)
      reads this, memory, proxy, proxy.global, proxy.global.bitmap
    {
      && PageTable.Valid(View()) && proxy.Valid()
      && (forall g :: g in path ==> g < MAX_FRAMES && proxy.global.State().view[g])
    }

    method WriteEntry(f: nat, i: nat, e: Entry)
      requires f in memory.tables && i < ENTRIES
      modifies memory
      ensures View() == WithEntry(old(View()), f, i, e)
    {
      memory.tables := memory.tables[f := memory.tables[f][i := e]];
    }

    /** Follow an entry to the next table, creating or widening it. */
    method NextTable(f: nat, i: nat, flags: Flags, proxy: FrameAllocatorProxy) returns (r: Next, ghost taken: seq<nat>)
      requires Valid(proxy) && f in path && |path[f]| < 3 && i < ENTRIES
      requires Present in flags && flags <= PARENT_FLAGS
      modifies this`path, memory, proxy, proxy.global, proxy.global.bitmap
      ensures f in old(View()).tables && (View(), r, []) == PageTable.NextTable(old(View()), f, i, flags, taken)
      ensures Fresh(old(View()), taken)
      ensures proxy.Valid() && proxy.allocatedFrames == old(proxy.allocatedFrames) + taken
      ensures Drawn(old(proxy.global.State()), proxy.global.State(), taken)
      ensures r == NoFrame ==> CountFree(proxy.global.State().view) == 0
    {
      assert TableOk(View(), f);
      if memory.tables[f][i].IsUnused() {
        r, taken := CreateTable(f, i, flags, proxy);
      } else {
        r := WidenEntry(f, i, flags);
        taken := [];
        assert proxy.allocatedFrames + taken == proxy.allocatedFrames;
      }
    }

    /** `next_table` on an unused entry. */
    method CreateTable(f: nat, i: nat, flags: Flags, proxy: FrameAllocatorProxy) returns (r: Next, ghost taken: seq<nat>)
      requires Valid(proxy) && f in path && f in memory.tables && i < ENTRIES && memory.tables[f][i].IsUnused()
      modifies this`path, memory, proxy, proxy.global, proxy.global.bitmap
      ensures (View(), r, []) == PageTable.NextTable(old(View()), f, i, flags, taken)
      ensures Fresh(old(View()), taken)
      ensures proxy.Valid() && proxy.allocatedFrames == old(proxy.allocatedFrames) + taken
      ensures Drawn(old(proxy.global.State()), proxy.global.State(), taken)
      ensures r == NoFrame ==> CountFree(proxy.global.State().view) == 0
    {
      taken := [];
      var frame := proxy.AllocateFrame();
      if frame.None? {
        return NoFrame, [];
      }
      var g := frame.value;
      taken := [g];
      NextTableNew(View(), f, i, flags, g);
      SetTable(f, i, g, flags);
      r := Table(g);
    }

    /** `next_table` on an entry in use: add the rights it lacks. */
    method WidenEntry(f: nat, i: nat, flags: Flags) returns (r: Next)
      requires f in path && f in memory.tables && i < ENTRIES && !memory.tables[f][i].IsUnused()
      modifies memory
      ensures (View(), r, []) == PageTable.NextTable(old(View()), f, i, flags, [])
    {
      var entry := memory.tables[f][i];
      SameEntry(View(), f, i);
      if flags != {} && !(flags <= entry.flags) {
        WriteEntry(f, i, Entry(entry.frame, entry.flags + flags));
      }
      if Huge in memory.tables[f][i].flags {
        r := HitHuge;
      } else {
        r := Table(memory.tables[f][i].frame);
      }
    }

    /** Point an unused entry at a new table and clear that table. */
    method SetTable(f: nat, i: nat, g: nat, flags: Flags)
      requires f in memory.tables && f in path && i < ENTRIES && g !in path
      modifies this`path, memory
      ensures View() == WithTable(old(View()), f, i, g, flags)
    {
      WriteEntry(f, i, Entry(g, flags));
      memory.tables := memory.tables[g := EmptyTable()];
      path := path[g := path[f] + [i]];
    }

    /** One step of the descent, ready for the next. */
    method StepDown(f: nat, idx: seq<nat>, flags: Flags, proxy: FrameAllocatorProxy) returns (r: Next, ghost taken: seq<nat>)
      requires Valid(proxy) && CanDescend(View(), f, idx, flags, []) && |idx| > 1
      modifies this`path, memory, proxy, proxy.global, proxy.global.bitmap
      ensures CanDescend(old(View()), f, idx, flags, taken)
      ensures (View(), r, []) == PageTable.NextTable(old(View()), f, idx[0], flags, taken)
      ensures r.Table? ==> Valid(proxy) && CanDescend(View(), r.frame, idx[1..], flags, [])
      ensures proxy.Valid() && proxy.allocatedFrames == old(proxy.allocatedFrames) + taken
      ensures Drawn(old(proxy.global.State()), proxy.global.State(), taken)
      ensures r == NoFrame ==> CountFree(proxy.global.State().view) == 0
    {
      ghost var s0, v0 := View(), proxy.global.State().view;
      r, taken := NextTable(f, idx[0], flags, proxy);
      StepReady(s0, View(), f, idx, flags, taken, r, v0, proxy.global.State().view);
    }

    /** The three consecutive steps of `map_to` and `set_flags`, one per remaining upper index. */
    method Descend(f: nat, idx: seq<nat>, flags: Flags, proxy: FrameAllocatorProxy) returns (r: Next, ghost taken: seq<nat>)
      requires Valid(proxy) && CanDescend(View(), f, idx, flags, [])
      modifies this`path, memory, proxy, proxy.global, proxy.global.bitmap
      ensures CanDescend(old(View()), f, idx, flags, taken)
      ensures (View(), r, []) == PageTable.Descend(old(View()), f, idx, flags, taken)
      ensures proxy.Valid() && proxy.allocatedFrames == old(proxy.allocatedFrames) + taken
      ensures Drawn(old(proxy.global.State()), proxy.global.State(), taken)
      ensures r == NoFrame ==> CountFree(proxy.global.State().view) == 0
      decreases |idx|
    {
      taken := [];
      if |idx| == 1 {
        r := Table(f);
        assert proxy.allocatedFrames + taken == proxy.allocatedFrames;
        return;
      }
      ghost var s0, fs0 := View(), proxy.global.State();
      r, taken := StepDown(f, idx, flags, proxy);
      if r.Table? {
        ghost var g, first, s1, fs1 := r.frame, taken, View(), proxy.global.State();
        ghost var rest;
        r, rest := Descend(r.frame, idx[1..], flags, proxy);
        taken := first + rest;
        DescendJoins(s0, f, idx, flags, first, rest, s1, g);
        DrawnJoin(fs0, fs1, proxy.global.State(), first, rest);
        AppendAssoc(old(proxy.allocatedFrames), first, rest);
      }
    }

    /** Map one page; nothing is mapped unless the answer says so. */
    method MapTo(page: nat, frame: nat, flags: Flags, proxy: FrameAllocatorProxy) returns (r: MapResult, ghost taken: seq<nat>)
      requires Valid(proxy) && Present in flags
      modifies this`path, memory, proxy, proxy.global, proxy.global.bitmap
      ensures Fresh(old(View()), taken)
      ensures (View(), r, []) == PageTable.MapTo(old(View()), Indices(page), frame, flags, taken)
      ensures proxy.Valid() && proxy.allocatedFrames == old(proxy.allocatedFrames) + taken
      ensures Drawn(old(proxy.global.State()), proxy.global.State(), taken)
      ensures r == FrameAllocationFailed ==> CountFree(proxy.global.State().view) == 0
    {
      ghost var s0, idx := View(), Indices(page);
      assert TableOk(s0, root);
      var d;
      d, taken := Descend(root, Indices(page), flags * PARENT_FLAGS, proxy);
      if d == NoFrame {
        return FrameAllocationFailed, taken;
      } else if d == HitHuge {
        return MappedToHugePage, taken;
      }
      ghost var s1 := View();
      assert d.frame in s1.tables by {
        DescendKeeps(s0, root, idx, flags * PARENT_FLAGS, taken);
        assert TableOk(s1, d.frame);
      }
      if !memory.tables[d.frame][L1(page)].IsUnused() {
        return PageAlreadyMapped(frame), taken;
      }
      if Huge in flags {
        return Panicked, taken;
      }
      WriteEntry(d.frame, L1(page), Entry(frame, flags));
      r := Mapped;
    }

    /** One page of `set_flags`: the leaf gets the new flags if the page is mapped. */
    method SetPageFlags(page: nat, flags: Flags, proxy: FrameAllocatorProxy) returns (ok: bool, ghost taken: seq<nat>)
      requires Valid(proxy) && Good(View()) && Present in flags
      modifies this`path, memory, proxy, proxy.global, proxy.global.bitmap
      ensures Fresh(old(View()), taken)
      ensures (View(), ok, []) == PageRuns.SetPageFlags(old(View()), Indices(page), flags, taken)
      ensures proxy.Valid() && proxy.allocatedFrames == old(proxy.allocatedFrames) + taken
      ensures Drawn(old(proxy.global.State()), proxy.global.State(), taken)
      ensures !ok ==> CountFree(proxy.global.State().view) == 0
    {
      ghost var s0, idx := View(), Indices(page);
      assert TableOk(s0, root);
      var d;
      d, taken := Descend(root, Indices(page), flags * PARENT_FLAGS, proxy);
      if !d.Table? {
        NotHuge(s0, idx, flags * PARENT_FLAGS, taken);
        return false, taken;
      }
      ghost var s1 := View();
      assert d.frame in s1.tables by {
        DescendKeeps(s0, root, idx, flags * PARENT_FLAGS, taken);
        assert TableOk(s1, d.frame);
      }
      var e := memory.tables[d.frame][L1(page)];
      if !e.IsUnused() {
        WriteEntry(d.frame, L1(page), Entry(e.frame, flags));
      }
      ok := true;
    }

    /** The same, with what it means for the whole space. */
    method SetNextFlags(page: nat, flags: Flags, proxy: FrameAllocatorProxy) returns (ok: bool, ghost taken: seq<nat>)
      requires Valid(proxy) && Good(View()) && Present in flags && CanonicalPage(page)
      modifies this`path, memory, proxy, proxy.global, proxy.global.bitmap
      ensures Valid(proxy) && Good(View())
      ensures PageRuns.Reflags(old(View()), View(), page, if ok then page + 1 else page, flags)
      ensures PageRuns.Rewritten(old(View()), View(), taken)
      ensures PageFlagged(old(View()), old(proxy.global.State()), Indices(page), flags, taken, View(), proxy.global.State(), ok)
      ensures proxy.allocatedFrames == old(proxy.allocatedFrames) + taken
      ensures Drawn(old(proxy.global.State()), proxy.global.State(), taken)
      ensures !ok ==> CountFree(proxy.global.State().view) == 0
    {
      ghost var s0, v0 := View(), proxy.global.State().view;
      ok, taken := SetPageFlags(page, flags, proxy);
      PageRuns.FirstPage(s0, page, flags, taken);
      PageRuns.SetPageFlagsRewrites(s0, Indices(page), flags, taken);
      assert Taken(taken, []) == taken;
      StepMarked(s0, View(), v0, proxy.global.State().view, taken);
    }

    /** The pages `start..end` in order; `stop` is the first page that was not reached. */
    method SetFlags(start: nat, end: nat, flags: Flags, proxy: FrameAllocatorProxy) returns (stop: nat, ghost taken: seq<nat>)
      requires Valid(proxy) && Good(View()) && Present in flags
      requires start <= end && PageRuns.CanonicalRange(start, end)
      modifies this`path, memory, proxy, proxy.global, proxy.global.bitmap
      ensures Valid(proxy) && Good(View())
      ensures start <= stop <= end && PageRuns.Reflags(old(View()), View(), start, stop, flags)
      ensures PageRuns.Rewritten(old(View()), View(), taken)
      ensures proxy.allocatedFrames == old(proxy.allocatedFrames) + taken
      ensures Drawn(old(proxy.global.State()), proxy.global.State(), taken)
      ensures stop < end ==> CountFree(proxy.global.State().view) == 0
    {
      stop := start;
      taken := [];
      assert proxy.allocatedFrames + taken == proxy.allocatedFrames;
      while stop < end
        invariant start <= stop <= end
        invariant Valid(proxy) && Good(View())
        invariant PageRuns.Reflags(old(View()), View(), start, stop, flags)
        invariant PageRuns.Rewritten(old(View()), View(), taken)
        invariant proxy.allocatedFrames == old(proxy.allocatedFrames) + taken
        invariant Drawn(old(proxy.global.State()), proxy.global.State(), taken)
      {
        ghost var s0, fs0 := View(), proxy.global.State();
        var ok;
        ghost var more;
        ok, more := SetNextFlags(stop, flags, proxy);
        PageRuns.RewrittenJoin(old(View()), s0, View(), taken, more);
        DrawnJoin(old(proxy.global.State()), fs0, proxy.global.State(), taken, more);
        AppendAssoc(old(proxy.allocatedFrames), taken, more);
        taken := taken + more;
        if !ok {
          PageRuns.ReflagsStay(old(View()), s0, View(), start, stop, flags);
          return;
        }
        PageRuns.ReflagsAppend(old(View()), s0, View(), start, stop, flags);
        stop := stop + 1;
      }
    }

    /** Walk the tables for a page without changing them. */
    method TranslatePage(page: nat) returns (m: Mapping)
      requires PageTable.Valid(View())
      ensures m == Lookup(View(), Indices(page))
    {
      ghost var s, idx := View(), Indices(page);
      assert TableOk(s, root) && EntryOk(s, root, L4(page));
      assert idx[1..] == [L3(page), L2(page), L1(page)] && idx[1..][1..] == [L2(page), L1(page)] && idx[1..][1..][1..] == [L1(page)];
      var e := memory.tables[root][L4(page)];
      if Present !in e.flags { return NotMapped; }
      if Huge in e.flags { return HugePage; }
      assert Lookup(s, idx) == Translate(s.tables, e.frame, idx[1..]);
      assert TableOk(s, e.frame) && EntryOk(s, e.frame, L3(page));
      e := memory.tables[e.frame][L3(page)];
      if Present !in e.flags { return NotMapped; }
      if Huge in e.flags { return HugePage; }
      assert Lookup(s, idx) == Translate(s.tables, e.frame, idx[1..][1..]);
      assert TableOk(s, e.frame) && EntryOk(s, e.frame, L2(page));
      e := memory.tables[e.frame][L2(page)];
      if Present !in e.flags { return NotMapped; }
      if Huge in e.flags { return HugePage; }
      assert Lookup(s, idx) == Translate(s.tables, e.frame, idx[1..][1..][1..]);
      assert TableOk(s, e.frame);
      e := memory.tables[e.frame][L1(page)];
      m := if e.IsUnused() then NotMapped else Leaf(e);
    }
  }

  /** One page of `set_flags` on tables and allocator: `taken` are the frames it had to allocate. */
  ghost predicate PageFlagged(s: Space, fs: Frames, idx: seq<nat>, flags: Flags, taken: seq<nat>, s': Space, fs': Frames, ok: bool) {
    && ValidIndices(idx) && Present in flags && Handed(fs, fs', taken) && (!ok ==> CountFree(fs'.view) == 0)
    && Good(s) && Fresh(s, taken) && PageRuns.SetPageFlags(s, idx, flags, taken) == (s', ok, [])
  }

  /** A space built by `map_to` and `set_flags` alone. */
  ghost predicate Good(s: Space) {
    RightsInv(s) && PageRuns.NoHuge(s)
  }

  lemma NotHuge(s: Space, idx: seq<nat>, flags: Flags, taken: seq<nat>)
    requires Good(s) && ValidIndices(idx) && CanDescend(s, s.root, idx, flags, taken)
    ensures PageTable.Descend(s, s.root, idx, flags, taken).1 != HitHuge
  {
    DescendKeeps(s, s.root, idx, flags, taken);
    TranslateByWalk(s.tables, s.root, idx);
    assert Lookup(s, idx) != HugePage;
  }

  lemma SameEntry(s: Space, f: nat, i: nat)
    requires f in s.tables && i < ENTRIES
    ensures WithEntry(s, f, i, s.tables[f][i]) == s
  {
    assert s.tables[f][i := s.tables[f][i]] == s.tables[f];
    assert s.tables[f := s.tables[f]] == s.tables;
  }

  /** After one step the next one can be taken, and every table is still marked. */
  lemma StepReady(s: Space, s1: Space, f: nat, idx: seq<nat>, flags: Flags, taken: seq<nat>, r: Next, v: View, v1: View)
    requires CanDescend(s, f, idx, flags, taken) && |idx| > 1
    requires (s1, r, []) == PageTable.NextTable(s, f, idx[0], flags, taken)
    requires |v| == MAX_FRAMES && Taking(v, v1, taken) && forall g :: g in s.path ==> g < MAX_FRAMES && v[g]
    ensures PageTable.Valid(s1) && (forall g :: g in s1.path ==> g < MAX_FRAMES && v1[g])
    ensures r.Table? ==> CanDescend(s1, r.frame, idx[1..], flags, [])
  {
    StepDescends(s, f, idx, flags, taken);
    StepMarked(s, s1, v, v1, taken);
  }

  lemma StepMarked(s: Space, s1: Space, v: View, v1: View, taken: seq<nat>)
    requires |v| == MAX_FRAMES && Taking(v, v1, taken)
    requires s1.path.Keys == s.path.Keys + Elements(taken)
    requires forall g :: g in s.path ==> g < MAX_FRAMES && v[g]
    ensures forall g :: g in s1.path ==> g < MAX_FRAMES && v1[g]
  {
  }

  lemma NextTableNew(s: Space, f: nat, i: nat, flags: Flags, g: nat)
    requires f in s.tables && f in s.path && i < ENTRIES && s.tables[f][i].IsUnused()
    ensures PageTable.NextTable(s, f, i, flags, [g]) == (WithTable(s, f, i, g, flags), Table(g), [])
  {
    assert [g][1..] == [];
  }

  /** The frames of the first step followed by those of the rest are the supply of the whole. */
  lemma DescendJoins(s: Space, f: nat, idx: seq<nat>, flags: Flags, first: seq<nat>, rest: seq<nat>, s1: Space, g: nat)
    requires CanDescend(s, f, idx, flags, first) && |idx| > 1
    requires PageTable.NextTable(s, f, idx[0], flags, first) == (s1, Table(g), [])
    requires CanDescend(s1, g, idx[1..], flags, rest)
    ensures CanDescend(s, f, idx, flags, first + rest)
    ensures PageTable.Descend(s, f, idx, flags, first + rest) == PageTable.Descend(s1, g, idx[1..], flags, rest)
  {
    FreshAfterStep(s, f, idx, flags, first, rest, s1, g);
    NextTableMore(s, f, idx[0], flags, first, rest);
  }

  lemma FreshAfterStep(s: Space, f: nat, idx: seq<nat>, flags: Flags, first: seq<nat>, rest: seq<nat>, s1: Space, g: nat)
    requires CanDescend(s, f, idx, flags, first) && |idx| > 1
    requires PageTable.NextTable(s, f, idx[0], flags, first) == (s1, Table(g), [])
    requires Fresh(s1, rest)
    ensures Fresh(s, first + rest)
  {
    NextTableKeeps(s, f, idx[0], flags, first);
    assert Taken(first, []) == first;
    FreshJoin(s, s1, first, rest);
  }

  /** A step takes at most one frame; what follows in the supply is left over. */
  lemma NextTableMore(s: Space, f: nat, i: nat, flags: Flags, first: seq<nat>, rest: seq<nat>)
    requires f in s.tables && f in s.path && i < ENTRIES
    requires PageTable.NextTable(s, f, i, flags, first).2 == [] && PageTable.NextTable(s, f, i, flags, first).1.Table?
    ensures
      var (s1, r, left) := PageTable.NextTable(s, f, i, flags, first);
      PageTable.NextTable(s, f, i, flags, first + rest) == (s1, r, rest)
  {
    if s.tables[f][i].IsUnused() {
      assert |first| == 1 && (first + rest)[1..] == rest;
    } else {
      assert first + rest == rest;
    }
  }

  lemma FreshJoin(s: Space, s1: Space, a: seq<nat>, b: seq<nat>)
    requires Fresh(s, a) && Fresh(s1, b) && s1.path.Keys == s.path.Keys + Elements(a)
    ensures Fresh(s, a + b)
  {
    forall f | f in a ensures f !in b {
      assert f in Elements(a);
    }
    DistinctAppend(a, b);
  }
}
