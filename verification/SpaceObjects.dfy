/**
  The objects behind the behaviours: each method of an address space is an event of the world
  that the objects make up, so that everything proved of behaviours holds of them.
 */
module SpaceObjects {
  import opened VirtualMemory
  import opened PageTable
  import opened FrameView
  import opened Ownership
  import opened Paging
  import opened AddressSpaces
  import opened SpaceRuns
  import FA = FrameAllocator
  import Ledger

  type Spaces = map<nat, AddressSpace>

  ghost function Proxies(spaces: Spaces): (s: set<object>) {
    set p | p in spaces :: spaces[p].proxy
  }

  ghost function Tables(spaces: Spaces): (s: set<object>) {
    set p | p in spaces :: spaces[p].table
  }

  ghost function OwnerOf(a: AddressSpace): (o: Owner)
    reads a.table, a.proxy
  {
    Owner(a.table.root, a.table.path, a.proxy.allocatedFrames)
  }

  /** The world that the objects make up. */
  ghost function Seen(spaces: Spaces, memory: Memory, global: FA.FrameAllocator): (w: World)
    requires global.Valid()
    reads memory, global, global.bitmap, Proxies(spaces), Tables(spaces)
  {
    World(global.State(), memory.tables, map p | p in spaces :: OwnerOf(spaces[p]))
  }

  /** Different spaces are different objects over one memory and one allocator. */
  ghost predicate Together(spaces: Spaces, memory: Memory, global: FA.FrameAllocator)
    reads global, global.bitmap
  {
    && global.Valid()
    && (forall p {:trigger spaces[p]} :: p in spaces ==>
          spaces[p].memory == memory == spaces[p].table.memory && spaces[p].proxy.global == global)
    && (forall p, q {:trigger spaces[p], spaces[q]} :: p in spaces && q in spaces && p != q ==>
          spaces[p].proxy != spaces[q].proxy && spaces[p].table != spaces[q].table)
  }

  lemma SpaceValid(spaces: Spaces, memory: Memory, global: FA.FrameAllocator, base: View, p: nat)
    requires Together(spaces, memory, global) && SpaceRuns.Inv(Seen(spaces, memory, global), base) && p in spaces
    ensures spaces[p].Valid()
  {
    var w := Seen(spaces, memory, global);
    OwnedMarked(w, p, base);
    assert Good(At(w, p)) && Owns(At(w, p), w.spaces[p].owned);
    assert At(w, p) == spaces[p].table.View();
  }

  lemma MapEvent(w: World, p: nat, w': World, page: nat, flags: Flags, taken: seq<nat>, m: MapResult, base: View) returns (e: Event)
    requires SpaceRuns.Inv(w, base) && p in w.spaces && p in w'.spaces && CanonicalPage(page)
    requires w'.spaces == w.spaces[p := w'.spaces[p]] && w'.spaces[p].root == w.spaces[p].root
    requires w'.spaces[p].owned == w.spaces[p].owned + taken
    requires taken == [] ==> At(w', p) == At(w, p) && w'.frames == w.frames
    requires taken != [] ==> PageAdded(At(w, p), w.frames, Indices(page), flags, taken[0], taken[1..], At(w', p), w'.frames, m)
    ensures SpaceRuns.Inv(w', base)
    ensures if taken == [] then w' == w
            else e.PageMapped? && (e.space, e.page, e.flags) == (p, page, flags) && Happens(w, e, w')
  {
    if taken == [] {
      e := Dropped(p);
      assert w.spaces[p].owned + [] == w.spaces[p].owned;
      assert w.spaces[p := w'.spaces[p]] == w.spaces;
    } else {
      e := PageMapped(p, page, flags, taken[0], taken[1..], m);
      assert [taken[0]] + taken[1..] == taken;
      EventKeeps(w, e, w', base);
    }
  }

  lemma FlagEvent(w: World, p: nat, w': World, page: nat, flags: Flags, taken: seq<nat>, ok: bool, base: View)
    requires SpaceRuns.Inv(w, base) && p in w.spaces && p in w'.spaces && CanonicalPage(page)
    requires w'.spaces == w.spaces[p := w'.spaces[p]] && w'.spaces[p].root == w.spaces[p].root
    requires w'.spaces[p].owned == w.spaces[p].owned + taken
    requires PageFlagged(At(w, p), w.frames, Indices(page), flags, taken, At(w', p), w'.frames, ok)
    ensures Happens(w, FlagsSet(p, page, flags, taken, ok), w') && SpaceRuns.Inv(w', base)
  {
    EventKeeps(w, FlagsSet(p, page, flags, taken, ok), w', base);
  }

  lemma OneChanged(m: map<nat, Owner>, m': map<nat, Owner>, p: nat)
    requires p in m && m'.Keys == m.Keys && forall q :: q in m && q != p ==> m'[q] == m[q]
    ensures m' == m[p := m'[p]]
  {
  }

  /** If the records of the other spaces are as in `m`, only that of `p` differs from it. */
  lemma OthersUntouched(spaces: Spaces, memory: Memory, global: FA.FrameAllocator, p: nat, m: map<nat, Owner>)
    requires p in spaces && global.Valid() && m.Keys == spaces.Keys
    requires forall q {:trigger spaces[q]} :: q in spaces && q != p ==> OwnerOf(spaces[q]) == m[q]
    ensures Seen(spaces, memory, global).spaces == m[p := OwnerOf(spaces[p])]
  {
    OneChanged(m, Seen(spaces, memory, global).spaces, p);
  }

  lemma SeenAt(spaces: Spaces, memory: Memory, global: FA.FrameAllocator, p: nat)
    requires Together(spaces, memory, global) && p in spaces
    ensures At(Seen(spaces, memory, global), p) == spaces[p].table.View()
  {
  }

  /** `map_pages` on one page, as far as events tell. */
  method MapOne(a: AddressSpace, page: nat, flags: Flags) returns (r: PagesResult, ghost taken: seq<nat>, ghost m: MapResult)
    requires a.Valid() && Present in flags
    modifies a.table`path, a.memory, a.proxy, a.proxy.global, a.proxy.global.bitmap
    ensures a.proxy.global.Valid() && (r == OutOfMemory <==> taken == [])
    ensures a.proxy.allocatedFrames == old(a.proxy.allocatedFrames) + taken
    ensures taken == [] ==> a.table.View() == old(a.table.View()) && a.proxy.global.State() == old(a.proxy.global.State())
    ensures taken != [] ==> PageAdded(old(a.table.View()), old(a.proxy.global.State()), Indices(page), flags, taken[0], taken[1..],
                                      a.table.View(), a.proxy.global.State(), m)
  {
    r, taken, m := a.MapPage(page, flags);
  }

  /** `set_flags` on one page, as far as events tell. */
  method FlagOne(a: AddressSpace, page: nat, flags: Flags) returns (ok: bool, ghost taken: seq<nat>)
    requires a.Valid() && Present in flags && CanonicalPage(page)
    modifies a.table`path, a.memory, a.proxy, a.proxy.global, a.proxy.global.bitmap
    ensures a.proxy.global.Valid() && a.proxy.allocatedFrames == old(a.proxy.allocatedFrames) + taken
    ensures PageFlagged(old(a.table.View()), old(a.proxy.global.State()), Indices(page), flags, taken,
                        a.table.View(), a.proxy.global.State(), ok)
  {
    ok, taken := a.table.SetNextFlags(page, flags, a.proxy);
  }

  /** A page mapped by one of the objects; the others keep their records. */
  method MapPageOf(ghost spaces: Spaces, ghost p: nat, a: AddressSpace, page: nat, flags: Flags)
    returns (r: PagesResult, ghost taken: seq<nat>, ghost m: MapResult)
    requires Together(spaces, a.memory, a.proxy.global) && p in spaces && spaces[p] == a && a.Valid() && Present in flags
    modifies a.table`path, a.memory, a.proxy, a.proxy.global, a.proxy.global.bitmap
    ensures Together(spaces, a.memory, a.proxy.global) && (r == OutOfMemory <==> taken == [])
    ensures Seen(spaces, a.memory, a.proxy.global).spaces == old(Seen(spaces, a.memory, a.proxy.global)).spaces[p := OwnerOf(a)]
    ensures a.proxy.allocatedFrames == old(a.proxy.allocatedFrames) + taken
    ensures taken == [] ==> a.table.View() == old(a.table.View()) && a.proxy.global.State() == old(a.proxy.global.State())
    ensures taken != [] ==> PageAdded(old(a.table.View()), old(a.proxy.global.State()), Indices(page), flags, taken[0], taken[1..],
                                      a.table.View(), a.proxy.global.State(), m)
  {
    ghost var before := Seen(spaces, a.memory, a.proxy.global).spaces;
    r, taken, m := MapOne(a, page, flags);
    OthersUntouched(spaces, a.memory, a.proxy.global, p, before);
  }

  /** A page reflagged by one of the objects; the others keep their records. */
  method SetFlagsOf(ghost spaces: Spaces, ghost p: nat, a: AddressSpace, page: nat, flags: Flags)
    returns (ok: bool, ghost taken: seq<nat>)
    requires Together(spaces, a.memory, a.proxy.global) && p in spaces && spaces[p] == a && a.Valid()
    requires Present in flags && CanonicalPage(page)
    modifies a.table`path, a.memory, a.proxy, a.proxy.global, a.proxy.global.bitmap
    ensures Together(spaces, a.memory, a.proxy.global)
    ensures Seen(spaces, a.memory, a.proxy.global).spaces == old(Seen(spaces, a.memory, a.proxy.global)).spaces[p := OwnerOf(a)]
    ensures a.proxy.allocatedFrames == old(a.proxy.allocatedFrames) + taken
    ensures PageFlagged(old(a.table.View()), old(a.proxy.global.State()), Indices(page), flags, taken,
                        a.table.View(), a.proxy.global.State(), ok)
  {
    ghost var before := Seen(spaces, a.memory, a.proxy.global).spaces;
    ok, taken := FlagOne(a, page, flags);
    OthersUntouched(spaces, a.memory, a.proxy.global, p, before);
  }

  /** One page of `map_pages` is an event, or finds no frame and changes nothing. */
  method MapPage(ghost spaces: Spaces, ghost p: nat, a: AddressSpace, page: nat, flags: Flags, ghost base: View)
    returns (r: PagesResult, ghost e: Event)
    requires Together(spaces, a.memory, a.proxy.global) && p in spaces && spaces[p] == a
    requires SpaceRuns.Inv(Seen(spaces, a.memory, a.proxy.global), base) && Present in flags && CanonicalPage(page)
    modifies a.table`path, a.memory, a.proxy, a.proxy.global, a.proxy.global.bitmap
    ensures Together(spaces, a.memory, a.proxy.global) && SpaceRuns.Inv(Seen(spaces, a.memory, a.proxy.global), base)
    ensures
      var w, w' := old(Seen(spaces, a.memory, a.proxy.global)), Seen(spaces, a.memory, a.proxy.global);
      if r == OutOfMemory then w' == w
      else e.PageMapped? && (e.space, e.page, e.flags) == (p, page, flags) && Happens(w, e, w')
  {
    ghost var w := Seen(spaces, a.memory, a.proxy.global);
    SpaceValid(spaces, a.memory, a.proxy.global, base, p);
    SeenAt(spaces, a.memory, a.proxy.global, p);
    ghost var taken, m;
    r, taken, m := MapPageOf(spaces, p, a, page, flags);
    ghost var w' := Seen(spaces, a.memory, a.proxy.global);
    SeenAt(spaces, a.memory, a.proxy.global, p);
    e := MapEvent(w, p, w', page, flags, taken, m, base);
  }

  /** One page of `set_flags` is an event. */
  method SetFlags(ghost spaces: Spaces, ghost p: nat, a: AddressSpace, page: nat, flags: Flags, ghost base: View)
    returns (ok: bool, ghost e: Event)
    requires Together(spaces, a.memory, a.proxy.global) && p in spaces && spaces[p] == a
    requires SpaceRuns.Inv(Seen(spaces, a.memory, a.proxy.global), base) && Present in flags && CanonicalPage(page)
    modifies a.table`path, a.memory, a.proxy, a.proxy.global, a.proxy.global.bitmap
    ensures Together(spaces, a.memory, a.proxy.global) && SpaceRuns.Inv(Seen(spaces, a.memory, a.proxy.global), base)
    ensures e.FlagsSet? && (e.space, e.page, e.flags, e.ok) == (p, page, flags, ok)
    ensures Happens(old(Seen(spaces, a.memory, a.proxy.global)), e, Seen(spaces, a.memory, a.proxy.global))
  {
    ghost var w := Seen(spaces, a.memory, a.proxy.global);
    SpaceValid(spaces, a.memory, a.proxy.global, base, p);
    SeenAt(spaces, a.memory, a.proxy.global, p);
    ghost var taken;
    ok, taken := SetFlagsOf(spaces, p, a, page, flags);
    e := FlagsSet(p, page, flags, taken, ok);
    SeenAt(spaces, a.memory, a.proxy.global, p);
    FlagEvent(w, p, Seen(spaces, a.memory, a.proxy.global), page, flags, taken, ok, base);
  }

  lemma TogetherMore(spaces: Spaces, p: nat, a: AddressSpace, memory: Memory, global: FA.FrameAllocator)
    requires Together(spaces, memory, global) && p !in spaces
    requires a.memory == memory == a.table.memory && a.proxy.global == global
    requires a.proxy !in Proxies(spaces) && a.table !in Tables(spaces)
    ensures Together(spaces[p := a], memory, global)
  {
    var all := spaces[p := a];
    forall q, r | q in all && r in all && q != r ensures all[q].proxy != all[r].proxy && all[q].table != all[r].table {
      assert q != p ==> all[q] == spaces[q] && spaces[q].proxy in Proxies(spaces) && spaces[q].table in Tables(spaces);
      assert r != p ==> all[r] == spaces[r] && spaces[r].proxy in Proxies(spaces) && spaces[r].table in Tables(spaces);
    }
  }

  /** Objects that are not touched keep their records. */
  lemma SameOwners(m: map<nat, Owner>, m': map<nat, Owner>)
    requires m.Keys == m'.Keys && forall q :: q in m ==> m'[q] == m[q]
    ensures m' == m
  {
  }

  lemma SeenMore(spaces: Spaces, p: nat, a: AddressSpace, memory: Memory, global: FA.FrameAllocator)
    requires global.Valid() && p !in spaces
    ensures Seen(spaces[p := a], memory, global).spaces == Seen(spaces, memory, global).spaces[p := OwnerOf(a)]
  {
    var all := spaces[p := a];
    forall q | q in all ensures OwnerOf(all[q]) == Seen(spaces, memory, global).spaces[p := OwnerOf(a)][q] {
      assert q != p ==> all[q] == spaces[q];
    }
  }

  /** A new space, as far as events tell. */
  method NewOne(memory: Memory, global: FA.FrameAllocator) returns (a: AddressSpace)
    requires global.Valid() && CountFree(global.State().view) > 0
    modifies memory, global, global.bitmap
    ensures global.Valid() && fresh(a.proxy) && fresh(a.table)
    ensures a.memory == memory == a.table.memory && a.proxy.global == global
    ensures OwnerOf(a) == Owner(a.table.root, map[a.table.root := []], [a.table.root])
    ensures RootMade(old(memory.tables), old(global.State()), a.table.root, memory.tables, global.State())
  {
    a := new AddressSpace(memory, global);
  }

  /** A new object beside the others, on the world they make up. */
  method CreateOf(ghost spaces: Spaces, ghost p: nat, memory: Memory, global: FA.FrameAllocator) returns (a: AddressSpace)
    requires Together(spaces, memory, global) && p !in spaces && CountFree(global.State().view) > 0
    modifies memory, global, global.bitmap
    ensures Together(spaces[p := a], memory, global)
    ensures
      var w, w' := old(Seen(spaces, memory, global)), Seen(spaces[p := a], memory, global);
      && w'.spaces == w.spaces[p := Owner(a.table.root, map[a.table.root := []], [a.table.root])]
      && RootMade(w.tables, w.frames, a.table.root, w'.tables, w'.frames)
  {
    ghost var before := Seen(spaces, memory, global).spaces;
    a := NewOne(memory, global);
    SameOwners(before, Seen(spaces, memory, global).spaces);
    SeenMore(spaces, p, a, memory, global);
    TogetherMore(spaces, p, a, memory, global);
  }

  /** Creating a space is an event. */
  method Create(ghost spaces: Spaces, ghost p: nat, memory: Memory, global: FA.FrameAllocator, ghost base: View)
    returns (a: AddressSpace)
    requires Together(spaces, memory, global) && p !in spaces && SpaceRuns.Inv(Seen(spaces, memory, global), base)
    requires CountFree(global.State().view) > 0
    modifies memory, global, global.bitmap
    ensures Together(spaces[p := a], memory, global) && SpaceRuns.Inv(Seen(spaces[p := a], memory, global), base)
    ensures Happens(old(Seen(spaces, memory, global)), Created(p, a.table.root), Seen(spaces[p := a], memory, global))
  {
    ghost var w := Seen(spaces, memory, global);
    a := CreateOf(spaces, p, memory, global);
    EventKeeps(w, Created(p, a.table.root), Seen(spaces[p := a], memory, global), base);
  }

  lemma OneLess(m: map<nat, Owner>, m': map<nat, Owner>, p: nat)
    requires p in m && m'.Keys == m.Keys - {p} && forall q :: q in m' ==> m'[q] == m[q]
    ensures m' == m - {p}
  {
  }

  /** An object dropped beside the others, on the world they make up. */
  method DropOf(ghost spaces: Spaces, ghost p: nat, a: AddressSpace)
    requires Together(spaces, a.memory, a.proxy.global) && p in spaces && spaces[p] == a && a.Valid()
    modifies a.proxy, a.proxy.global, a.proxy.global.bitmap
    ensures Together(spaces - {p}, a.memory, a.proxy.global)
    ensures
      var w, w' := old(Seen(spaces, a.memory, a.proxy.global)), Seen(spaces - {p}, a.memory, a.proxy.global);
      w' == World(Ledger.Release(w.frames, w.spaces[p].owned), w.tables, w.spaces - {p})
  {
    ghost var w := Seen(spaces, a.memory, a.proxy.global);
    a.Drop();
    ghost var rest := spaces - {p};
    ghost var w' := Seen(rest, a.memory, a.proxy.global);
    forall q | q in w'.spaces ensures w'.spaces[q] == w.spaces[q] {
      assert rest[q] == spaces[q] && spaces[q].proxy != spaces[p].proxy;
    }
    OneLess(w.spaces, w'.spaces, p);
    forall q | q in rest
      ensures rest[q].memory == a.memory == rest[q].table.memory && rest[q].proxy.global == a.proxy.global
    {
      assert rest[q] == spaces[q];
    }
    forall q, r | q in rest && r in rest && q != r ensures rest[q].proxy != rest[r].proxy && rest[q].table != rest[r].table {
      assert rest[q] == spaces[q] && rest[r] == spaces[r];
    }
  }

  /** Dropping a space is an event. */
  method Drop(ghost spaces: Spaces, ghost p: nat, a: AddressSpace, ghost base: View)
    requires Together(spaces, a.memory, a.proxy.global) && p in spaces && spaces[p] == a
    requires SpaceRuns.Inv(Seen(spaces, a.memory, a.proxy.global), base)
    modifies a.proxy, a.proxy.global, a.proxy.global.bitmap
    ensures Together(spaces - {p}, a.memory, a.proxy.global)
    ensures SpaceRuns.Inv(Seen(spaces - {p}, a.memory, a.proxy.global), base)
    ensures Happens(old(Seen(spaces, a.memory, a.proxy.global)), Dropped(p), Seen(spaces - {p}, a.memory, a.proxy.global))
  {
    ghost var w := Seen(spaces, a.memory, a.proxy.global);
    SpaceValid(spaces, a.memory, a.proxy.global, base, p);
    DropOf(spaces, p, a);
    EventKeeps(w, Dropped(p), Seen(spaces - {p}, a.memory, a.proxy.global), base);
  }
}
