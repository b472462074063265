/**
  Any number of address spaces over one memory and one frame allocator.  Every behaviour of
  creations, mappings, protection changes and drops keeps the spaces apart, and returns the
  frames they took.
 */
module SpaceRuns {
  import opened VirtualMemory
  import opened Sequences
  import opened PageTable
  import PageRuns
  import opened FrameView
  import opened Ownership
  import opened Paging
  import opened AddressSpaces
  import Ledger

  /** A space by its root, the place of each of its tables, and the frames of its proxy. */
  datatype Owner = Owner(root: nat, path: map<nat, seq<nat>>, owned: seq<nat>)

  datatype World = World(frames: Frames, tables: Tables, spaces: map<nat, Owner>)

  /** Steps of the operations of `AddressSpace`, one page at a time, with the frames they allocated and what they answered. */
  datatype Event =
    | Created(space: nat, root: nat)
    | PageMapped(space: nat, page: nat, flags: Flags, frame: nat, more: seq<nat>, answer: MapResult)
    | FlagsSet(space: nat, page: nat, flags: Flags, taken: seq<nat>, ok: bool)
    | Dropped(space: nat)

  function At(w: World, p: nat): (s: Space)
    requires p in w.spaces
  {
    Space(w.spaces[p].root, w.tables, w.spaces[p].path)
  }

  function Books(w: World): (l: Ledger.Ledger) {
    Ledger.Ledger(w.frames, map p | p in w.spaces :: w.spaces[p].owned)
  }

  /** Only the space `p` changes, and its proxy records the frames `taken`. */
  ghost predicate Acts(w: World, p: nat, taken: seq<nat>, w': World) {
    && p in w.spaces && p in w'.spaces
    && w'.spaces == w.spaces[p := Owner(w.spaces[p].root, w'.spaces[p].path, w.spaces[p].owned + taken)]
  }

  /** Tables change as `MapTo` and `SetPageFlags` say, the allocator as `Allocate` and `Deallocate` say. */
  ghost predicate Happens(w: World, e: Event, w': World) {
    match e
    case Created(p, root) =>
      && p !in w.spaces && RootMade(w.tables, w.frames, root, w'.tables, w'.frames)
      && w'.spaces == w.spaces[p := Owner(root, map[root := []], [root])]
    case PageMapped(p, page, flags, frame, more, answer) =>
      && CanonicalPage(page) && Acts(w, p, [frame] + more, w')
      && PageAdded(At(w, p), w.frames, Indices(page), flags, frame, more, At(w', p), w'.frames, answer)
    case FlagsSet(p, page, flags, taken, ok) =>
      && CanonicalPage(page) && Acts(w, p, taken, w')
      && PageFlagged(At(w, p), w.frames, Indices(page), flags, taken, At(w', p), w'.frames, ok)
    case Dropped(p) =>
      p in w.spaces && w' == World(Ledger.Release(w.frames, w.spaces[p].owned), w.tables, w.spaces - {p})
  }

  ghost predicate Behaviour(ws: seq<World>, es: seq<Event>) {
    |ws| == |es| + 1 && forall i {:trigger es[i]} :: 0 <= i < |es| ==> Happens(ws[i], es[i], ws[i + 1])
  }

  /** The used frames are those of `base` and those of one space each; every space is sound. */
  ghost predicate Inv(w: World, base: View) {
    && Ledger.Partition(Books(w), base)
    && forall p {:trigger At(w, p)} :: p in w.spaces ==> Good(At(w, p)) && Owns(At(w, p), w.spaces[p].owned)
  }

  // --- Books ----------------------------------------------------------------------------------

  lemma TakingOwners(owned: map<nat, seq<nat>>, p: nat, taken: seq<nat>, g: nat)
    requires p in owned
    ensures Ledger.OwnedBySome(owned[p := owned[p] + taken], g) <==> g in taken || Ledger.OwnedBySome(owned, g)
  {
    var owned' := owned[p := owned[p] + taken];
    if Ledger.OwnedBySome(owned, g) {
      var q :| q in owned && g in owned[q];
      assert g in owned'[q];
    }
    if g in taken {
      assert g in owned'[p];
    }
    if Ledger.OwnedBySome(owned', g) && g !in taken {
      var q :| q in owned' && g in owned'[q];
      assert g in owned[q];
    }
  }

  /** Taking several free frames at once keeps the partition. */
  lemma TakingKeeps(l: Ledger.Ledger, p: nat, frames: Frames, taken: seq<nat>, base: View)
    requires Ledger.Partition(l, base) && p in l.owned && FrameView.Inv(frames)
    requires Taking(l.frames.view, frames.view, taken)
    ensures Ledger.Partition(Ledger.Ledger(frames, l.owned[p := l.owned[p] + taken]), base)
  {
    var owned' := l.owned[p := l.owned[p] + taken];
    forall f | f in taken ensures !Ledger.OwnedBySome(l.owned, f) {
      assert f < |base| && !l.frames.view[f];
    }
    forall g: nat | g < |base|
      ensures (frames.view[g] <==> base[g] || Ledger.OwnedBySome(owned', g)) && !(base[g] && Ledger.OwnedBySome(owned', g))
    {
      TakingOwners(l.owned, p, taken, g);
      assert l.frames.view[g] <==> base[g] || Ledger.OwnedBySome(l.owned, g);
      assert g in taken ==> !l.frames.view[g];
    }
    NoneTwice(l.owned, taken);
    forall q | q in owned' ensures Distinct(owned'[q]) && forall g :: g in owned'[q] ==> g < |base| {
      assert Distinct(l.owned[q]);
      if q == p {
        DistinctAppend(l.owned[p], taken);
      }
    }
    forall q, r, g: nat | q in owned' && r in owned' && q != r && g in owned'[q] ensures g !in owned'[r] {
      assert g in taken ==> g !in l.owned[q] && g !in l.owned[r];
    }
  }

  lemma NoneTwice(owned: map<nat, seq<nat>>, taken: seq<nat>)
    requires forall f :: f in taken ==> !Ledger.OwnedBySome(owned, f)
    ensures forall q, f :: q in owned && f in owned[q] ==> f !in taken
  {
  }

  // --- One event ------------------------------------------------------------------------------

  /** Whatever the allocator hands out, the tree of a space is ready for it: none of the frames is in use. */
  lemma AlwaysReady(w: World, p: nat, frames: Frames, taken: seq<nat>, base: View)
    requires Inv(w, base) && p in w.spaces && Handed(w.frames, frames, taken)
    ensures Good(At(w, p)) && Fresh(At(w, p), taken) && Distinct(w.spaces[p].owned + taken)
    ensures FrameView.Inv(frames) && Taking(w.frames.view, frames.view, taken)
  {
    HandedTakes(w.frames, frames, taken);
    OwnedMarked(w, p, base);
    OtherMarked(w.frames.view, frames.view, taken, w.spaces[p].owned);
    assert Owns(At(w, p), w.spaces[p].owned);
    DistinctAppend(w.spaces[p].owned, taken);
  }

  /** The space that acted is sound, owns all it uses, and has left other memory alone. */
  ghost predicate Works(w: World, p: nat, taken: seq<nat>, w': World) {
    && Acts(w, p, taken, w') && FrameView.Inv(w'.frames)
    && Worked(At(w, p), w.spaces[p].owned, w.frames.view, At(w', p), w'.frames.view, taken)
  }

  lemma MappedWorks(w: World, e: Event, w': World, base: View)
    requires Inv(w, base) && e.PageMapped? && Happens(w, e, w')
    ensures Works(w, e.space, [e.frame] + e.more, w')
  {
    var PageMapped(p, page, flags, frame, more, answer) := e;
    var s, owned := At(w, p), w.spaces[p].owned;
    AlwaysReady(w, p, w'.frames, [frame] + more, base);
    AppendAssoc(owned, [frame], more);
    MapPageKeeps(s, owned, Indices(page), frame, flags, more);
    MapToRefines(s, Indices(page), frame, flags, more);
  }

  lemma FlaggedWorks(w: World, e: Event, w': World, base: View)
    requires Inv(w, base) && e.FlagsSet? && Happens(w, e, w')
    ensures Works(w, e.space, e.taken, w')
  {
    var FlagsSet(p, page, flags, taken, ok) := e;
    var s, owned := At(w, p), w.spaces[p].owned;
    AlwaysReady(w, p, w'.frames, taken, base);
    OwnedMarked(w, p, base);
    OtherMarked(w.frames.view, w'.frames.view, taken, owned);
    PageRuns.SetPageFlagsExact(s, Indices(page), flags, taken);
    PageRuns.SetPageFlagsRewrites(s, Indices(page), flags, taken);
    assert Taken(taken, []) == taken;
    RewrittenOwns(s, owned, At(w', p), taken);
  }

  /** Every event keeps the invariant, and every space but its own as it was. */
  lemma EventKeeps(w: World, e: Event, w': World, base: View)
    requires Inv(w, base) && Happens(w, e, w')
    ensures Inv(w', base)
    ensures forall q {:trigger At(w', q)} :: q in w.spaces && q != e.space ==>
              q in w'.spaces && w'.spaces[q] == w.spaces[q] && SameLookups(At(w, q), At(w', q))
  {
    match e {
      case Created(p, root) =>
        CreatedKeeps(w, p, root, w', base);
      case PageMapped(p, _, _, frame, more, _) =>
        MappedWorks(w, e, w', base);
        WorksKeeps(w, p, [frame] + more, w', base);
      case FlagsSet(p, _, _, taken, _) =>
        FlaggedWorks(w, e, w', base);
        WorksKeeps(w, p, taken, w', base);
      case Dropped(p) =>
        DroppedKeeps(w, p, w', base);
    }
  }

  lemma WorksKeeps(w: World, p: nat, taken: seq<nat>, w': World, base: View)
    requires Inv(w, base) && Works(w, p, taken, w')
    ensures Inv(w', base)
    ensures forall q {:trigger At(w', q)} :: q in w.spaces && q != p ==>
              q in w'.spaces && w'.spaces[q] == w.spaces[q] && SameLookups(At(w, q), At(w', q))
  {
    assert Ledger.Partition(Books(w'), base) by {
      TakingKeeps(Books(w), p, w'.frames, taken, base);
      assert Books(w').owned == Books(w).owned[p := Books(w).owned[p] + taken];
    }
    forall q | q in w.spaces && q != p
      ensures Good(At(w', q)) && Owns(At(w', q), w.spaces[q].owned) && SameLookups(At(w, q), At(w', q))
    {
      WorksBeside(w, p, taken, w', base, q);
    }
  }

  lemma WorksBeside(w: World, p: nat, taken: seq<nat>, w': World, base: View, q: nat)
    requires Inv(w, base) && Works(w, p, taken, w') && q in w.spaces && q != p
    ensures Good(At(w', q)) && Owns(At(w', q), w.spaces[q].owned) && SameLookups(At(w, q), At(w', q))
  {
    OwnedMarked(w, q, base);
    OwnedApart(w, p, q, base);
    OtherUndisturbed(At(w, p), w.spaces[p].owned, w.frames.view, At(w', p), w'.frames.view, taken, At(w, q), w.spaces[q].owned);
  }

  lemma CreatedKeeps(w: World, p: nat, root: nat, w': World, base: View)
    requires Inv(w, base) && Happens(w, Created(p, root), w')
    ensures Inv(w', base)
    ensures forall q {:trigger At(w', q)} :: q in w.spaces && q != p ==>
              q in w'.spaces && w'.spaces[q] == w.spaces[q] && SameLookups(At(w, q), At(w', q))
  {
    CreatedBooks(w, p, root, w', base);
    NewSpace(root, w'.tables);
    assert At(w', p) == Space(root, w'.tables, map[root := []]);
    forall q | q in w.spaces
      ensures Good(At(w', q)) && Owns(At(w', q), w.spaces[q].owned) && SameLookups(At(w, q), At(w', q))
    {
      CreatedBeside(w, p, root, w', base, q);
    }
  }

  lemma CreatedBooks(w: World, p: nat, root: nat, w': World, base: View)
    requires Inv(w, base) && Happens(w, Created(p, root), w')
    ensures Ledger.Partition(Books(w'), base)
  {
    HandedTakes(w.frames, w'.frames, [root]);
    Ledger.CreateKeeps(Books(w), p, base);
    var l := Ledger.Step(Books(w), Ledger.Create(p));
    TakingKeeps(l, p, w'.frames, [root], base);
    assert l.owned[p] + [root] == [root];
    assert Books(w').owned == l.owned[p := [root]];
  }

  lemma CreatedBeside(w: World, p: nat, root: nat, w': World, base: View, q: nat)
    requires Inv(w, base) && Happens(w, Created(p, root), w') && q in w.spaces
    ensures Good(At(w', q)) && Owns(At(w', q), w.spaces[q].owned) && SameLookups(At(w, q), At(w', q))
  {
    HandedTakes(w.frames, w'.frames, [root]);
    OwnedMarked(w, q, base);
    OtherMarked(w.frames.view, w'.frames.view, [root], w.spaces[q].owned);
    OtherKept(w.tables, w'.tables, [root], At(w, q), w.spaces[q].owned);
  }

  lemma DroppedKeeps(w: World, p: nat, w': World, base: View)
    requires Inv(w, base) && Happens(w, Dropped(p), w')
    ensures Inv(w', base)
    ensures forall q :: q in w.spaces && q != p ==> q in w'.spaces && w'.spaces[q] == w.spaces[q] && At(w', q) == At(w, q)
  {
    Ledger.DropKeeps(Books(w), p, base);
    assert Books(w').owned == Books(w).owned - {p};
    forall q | q in w'.spaces ensures Good(At(w', q)) && Owns(At(w', q), w'.spaces[q].owned) {
      assert At(w', q) == At(w, q);
    }
  }

  lemma OwnedMarked(w: World, p: nat, base: View)
    requires Inv(w, base) && p in w.spaces
    ensures AllMarked(w.frames.view, w.spaces[p].owned)
  {
    var owned := Books(w).owned;
    assert Distinct(owned[p]);
    forall f | f in owned[p] ensures f < |w.frames.view| && w.frames.view[f] {
      assert Ledger.OwnedBySome(owned, f);
    }
  }

  lemma OwnedApart(w: World, p: nat, q: nat, base: View)
    requires Inv(w, base) && p in w.spaces && q in w.spaces && p != q
    ensures forall f :: f in w.spaces[p].owned ==> f !in w.spaces[q].owned
  {
    var owned := Books(w).owned;
    forall f | f in owned[p] ensures f !in owned[q] {
    }
  }

  // --- Whole behaviours -------------------------------------------------------------------------

  lemma {:induction false} BehaviourInv(ws: seq<World>, es: seq<Event>, base: View)
    requires Behaviour(ws, es) && Inv(ws[0], base)
    ensures forall k :: 0 <= k < |ws| ==> Inv(ws[k], base)
    decreases |es|
  {
    if es == [] {
    } else {
      EventKeeps(ws[0], es[0], ws[1], base);
      Later(ws, es);
      BehaviourInv(ws[1..], es[1..], base);
      forall k | 0 <= k < |ws| ensures Inv(ws[k], base) {
        if k > 0 {
          assert ws[k] == ws[1..][k - 1];
        }
      }
    }
  }

  lemma Later(ws: seq<World>, es: seq<Event>)
    requires Behaviour(ws, es) && es != []
    ensures Behaviour(ws[1..], es[1..])
  {
    forall i | 0 <= i < |es[1..]| ensures Happens(ws[1..][i], es[1..][i], ws[1..][i + 1]) {
      assert es[1..][i] == es[i + 1];
    }
  }

  /** In every reachable state no page of any space leads to a frame or table of any other use. */
  lemma NeverShared(ws: seq<World>, es: seq<Event>, base: View, p: nat, q: nat, i: seq<nat>, j: seq<nat>)
    requires Behaviour(ws, es) && Inv(ws[0], base)
    requires var w := ws[|es|]; p in w.spaces && q in w.spaces
    requires ValidIndices(i) && ValidIndices(j) && (p, i) != (q, j)
    requires var w := ws[|es|]; Lookup(At(w, p), i).Leaf?
    ensures
      var w := ws[|es|];
      var frame := Lookup(At(w, p), i).entry.frame;
      && frame < |base| == |w.frames.view| && !base[frame] && w.frames.view[frame]
      && frame !in w.spaces[q].path
      && (Lookup(At(w, q), j).Leaf? ==> Lookup(At(w, q), j).entry.frame != frame)
  {
    BehaviourInv(ws, es, base);
    var w := ws[|es|];
    var frame := Lookup(At(w, p), i).entry.frame;
    assert Owns(At(w, p), w.spaces[p].owned) && Owns(At(w, q), w.spaces[q].owned);
    OwnedMarked(w, p, base);
    assert Ledger.OwnedBySome(Books(w).owned, frame) by {
      assert frame in Books(w).owned[p];
    }
    if p != q {
      OwnedApart(w, p, q, base);
    }
  }

  /** A space that no event names keeps its frames and every translation. */
  lemma {:induction false} Undisturbed(ws: seq<World>, es: seq<Event>, base: View, q: nat)
    requires Behaviour(ws, es) && Inv(ws[0], base) && q in ws[0].spaces
    requires forall i {:trigger es[i]} :: 0 <= i < |es| ==> es[i].space != q
    ensures q in ws[|es|].spaces && ws[|es|].spaces[q] == ws[0].spaces[q]
    ensures SameLookups(At(ws[0], q), At(ws[|es|], q))
    decreases |es|
  {
    if es == [] {
    } else {
      EventKeeps(ws[0], es[0], ws[1], base);
      Later(ws, es);
      Undisturbed(ws[1..], es[1..], base, q);
      assert ws[1..][|es| - 1] == ws[|es|] && SameLookups(At(ws[0], q), At(ws[1], q));
      SameLookupsTrans(At(ws[0], q), At(ws[1], q), At(ws[|es|], q));
    }
  }

  lemma SameLookupsTrans(s: Space, s1: Space, s2: Space)
    requires SameLookups(s, s1) && SameLookups(s1, s2)
    ensures SameLookups(s, s2)
  {
    forall idx | ValidIndices(idx) ensures Lookup(s2, idx) == Lookup(s, idx) {
      assert Lookup(s1, idx) == Lookup(s, idx);
    }
  }

  // --- Each space as if it were alone ---------------------------------------------------------------

  /** What an event does to the flat map of a space. */
  ghost function FlatEvent(m: PageRuns.Flat, e: Event): (m': PageRuns.Flat) {
    match e
    case PageMapped(_, page, flags, frame, _, answer) =>
      PageRuns.FlatStep(m, PageRuns.Map(page, frame, flags), PageRuns.MapOutcome(answer))
    case FlagsSet(_, page, flags, _, ok) =>
      PageRuns.FlatStep(m, PageRuns.Protect(page, page + 1, flags), PageRuns.ProtectOutcome(if ok then page + 1 else page))
    case _ => map[]
  }

  ghost function FlatOf(m: PageRuns.Flat, es: seq<Event>, p: nat): (m': PageRuns.Flat)
    decreases |es|
  {
    if es == [] then m else FlatOf(if es[0].space == p then FlatEvent(m, es[0]) else m, es[1..], p)
  }

  lemma MappedFlat(s: Space, m: PageRuns.Flat, page: nat, flags: Flags, frame: nat, more: seq<nat>)
    requires Good(s) && Fresh(s, more) && PageRuns.Refines(s, m) && CanonicalPage(page) && Present in flags
    ensures
      var (s', r, _) := MapTo(s, Indices(page), frame, flags, more);
      PageRuns.Refines(s', PageRuns.FlatStep(m, PageRuns.Map(page, frame, flags), PageRuns.MapOutcome(r)))
  {
    PageRuns.StepRefines(s, m, PageRuns.Map(page, frame, flags), more);
  }

  lemma FlaggedFlat(s: Space, m: PageRuns.Flat, page: nat, flags: Flags, taken: seq<nat>)
    requires Good(s) && Fresh(s, taken) && PageRuns.Refines(s, m) && CanonicalPage(page) && Present in flags
    ensures
      var (s', ok, _) := PageRuns.SetPageFlags(s, Indices(page), flags, taken);
      PageRuns.Refines(s', PageRuns.FlatStep(m, PageRuns.Protect(page, page + 1, flags),
                                             PageRuns.ProtectOutcome(if ok then page + 1 else page)))
  {
    PageRuns.SetPageFlagsExact(s, Indices(page), flags, taken);
    forall q: nat | CanonicalPage(q) && Indices(q) == Indices(page) ensures q == page {
      IndicesInjective(q, page);
    }
  }

  ghost predicate FlatAt(w: World, p: nat, m: PageRuns.Flat) {
    p in w.spaces ==> PageRuns.Refines(At(w, p), m)
  }

  lemma EventFlat(w: World, e: Event, w': World, base: View, p: nat, m: PageRuns.Flat)
    requires Inv(w, base) && Happens(w, e, w') && FlatAt(w, p, m)
    ensures FlatAt(w', p, if e.space == p then FlatEvent(m, e) else m)
  {
    if e.space == p {
      match e {
        case Created(_, root) => NewSpace(root, w'.tables);
        case PageMapped(_, page, flags, frame, more, _) => MappedFlat(At(w, p), m, page, flags, frame, more);
        case FlagsSet(_, page, flags, taken, _) => FlaggedFlat(At(w, p), m, page, flags, taken);
        case Dropped(_) =>
      }
    } else {
      EventKeeps(w, e, w', base);
      if p in w'.spaces {
        assert p in w.spaces && SameLookups(At(w, p), At(w', p));
      }
    }
  }

  /**
    The translations of a space are those of a flat map to which its own events alone were
    applied, whatever the other spaces do in between.
   */
  lemma {:induction false} EachAlone(ws: seq<World>, es: seq<Event>, base: View, p: nat, m: PageRuns.Flat)
    requires Behaviour(ws, es) && Inv(ws[0], base) && FlatAt(ws[0], p, m)
    ensures FlatAt(ws[|es|], p, FlatOf(m, es, p))
    decreases |es|
  {
    if es == [] {
    } else {
      EventKeeps(ws[0], es[0], ws[1], base);
      EventFlat(ws[0], es[0], ws[1], base, p, m);
      Later(ws, es);
      EachAlone(ws[1..], es[1..], base, p, if es[0].space == p then FlatEvent(m, es[0]) else m);
      assert ws[1..][|es| - 1] == ws[|es|];
    }
  }

  /** Once every space is gone the allocator is as before the first. */
  lemma AllDroppedRestores(ws: seq<World>, es: seq<Event>)
    requires Behaviour(ws, es) && FrameView.Inv(ws[0].frames) && ws[0].spaces == map[] && ws[|es|].spaces == map[]
    ensures ws[|es|].frames.view == ws[0].frames.view && ws[|es|].frames.free == ws[0].frames.free
  {
    var base := ws[0].frames.view;
    assert Books(ws[0]).owned == map[];
    assert Inv(ws[0], base);
    BehaviourInv(ws, es, base);
    var w := ws[|es|];
    assert Inv(w, base) && Books(w).owned == map[];
    forall f: nat | f < |base| ensures w.frames.view[f] == base[f] {
      assert !Ledger.OwnedBySome(Books(w).owned, f);
    }
    assert w.frames.view == base;
  }
}
