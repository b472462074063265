/**
  The first-fit heap as it lives in memory.  A node is two machine words at the start of its
  hole: the size and the address of the next node (zero for none).  Words of the hole that are
  not part of a node, and every word of a live block, belong to whoever owns those bytes.
 */
module HeapMemory {
  import opened Alignment
  import opened HoleList
  import opened HeapRuns
  import opened Options

  type Words = map<nat, nat>

  function HeadAddr(holes: seq<HoleInfo>): (a: nat) {
    if holes == [] then 0 else holes[0].addr
  }

  function NextAddr(holes: seq<HoleInfo>, i: nat): (a: nat)
    requires i < |holes|
  {
    if i + 1 < |holes| then holes[i + 1].addr else 0
  }

  /** The words hold the list: sizes and links, starting from the head link `first`. */
  ghost predicate Linked(first: nat, mem: Words, holes: seq<HoleInfo>) {
    && first == HeadAddr(holes)
    && forall i {:trigger NodeOf(mem, holes, i)} :: 0 <= i < |holes| ==> NodeOf(mem, holes, i)
  }

  predicate NodeOf(mem: Words, holes: seq<HoleInfo>, i: nat)
    requires i < |holes|
  {
    NodeAt(mem, holes[i].addr, holes[i].size, NextAddr(holes, i))
  }

  predicate NodeAt(mem: Words, a: nat, size: nat, next: nat) {
    a in mem && a + 8 in mem && mem[a] == size && mem[a + 8] == next
  }

  /** Nodes of different holes share no word. */
  ghost predicate Spaced(holes: seq<HoleInfo>) {
    && (forall i :: 0 <= i < |holes| ==> 0 < holes[i].addr)
    && (forall i, j {:trigger NodeBelow(holes[i], holes[j])} :: 0 <= i < j < |holes| ==> NodeBelow(holes[i], holes[j]))
  }

  predicate NodeBelow(h: HoleInfo, g: HoleInfo) {
    h.addr + MIN_ALLOC_SIZE <= g.addr
  }

  function InsertAt(holes: seq<HoleInfo>, k: nat, h: HoleInfo): (r: seq<HoleInfo>)
    requires k <= |holes|
  {
    holes[..k] + [h] + holes[k..]
  }

  function Resized(holes: seq<HoleInfo>, k: nat, size: nat): (r: seq<HoleInfo>)
    requires k < |holes|
  {
    holes[k := HoleInfo(holes[k].addr, size)]
  }

  /** Only words inside the given intervals may differ. */
  ghost predicate WritesOnly(m: Words, m': Words, s: seq<HoleInfo>) {
    forall w: nat :: w in m ==> w in m' && (m'[w] == m[w] || Covers(s, w))
  }

  /** The node before position `k`; zero stands for the dummy head. */
  function Cursor(holes: seq<HoleInfo>, k: nat): (a: nat)
    requires k <= |holes|
  {
    if k == 0 then 0 else holes[k - 1].addr
  }

  class Heap {
    var used: int
    var first: nat
    var mem: Words
    ghost var lo: nat
    ghost var hi: nat
    ghost var state: State

    ghost predicate Valid()
      reads this
    {
      Inv(state, lo, hi) && Linked(first, mem, state.holes) && used == state.used
    }

    /**
      One node, holding the whole region from the first aligned address on.  A region that
      leaves less than a node there is accepted too; then the list is not a proper one.
     */
    constructor (bottom: nat, size: nat)
      requires 0 < bottom
      ensures lo == AlignUp(bottom, HOLE_ALIGN) && hi == if lo <= bottom + size then bottom + size else lo
      ensures state == Initial(lo, hi) && Linked(first, mem, state.holes) && used == 0
      ensures Valid() <==> lo + MIN_ALLOC_SIZE <= bottom + size
    {
      var addr := AlignUp(bottom, HOLE_ALIGN);
      AlignUpLeast(bottom, HOLE_ALIGN);
      var left := if addr - bottom <= size then size - (addr - bottom) else 0;
      used := 0;
      first := addr;
      mem := map[addr := left, addr + 8 := 0];
      lo, hi := addr, addr + left;
      state := Initial(addr, addr + left);
      new;
      if lo + MIN_ALLOC_SIZE <= hi {
        InitialInv(lo, hi);
      } else {
        assert !ValidHole(state.holes[0]);
      }
    }

    /** Read the link of a node, or of the dummy head. */
    method Next(node: nat, ghost holes: seq<HoleInfo>, ghost k: nat) returns (a: nat)
      requires Linked(first, mem, holes) && Spaced(holes) && k <= |holes| && node == Cursor(holes, k)
      ensures a == if k < |holes| then holes[k].addr else 0
    {
      if node == 0 {
        a := first;
      } else {
        assert NodeOf(mem, holes, k - 1);
        a := mem[node + 8];
      }
    }

    /** Take the node after `node` out of the list. */
    method UnlinkNext(node: nat, ghost holes: seq<HoleInfo>, ghost k: nat)
      requires Linked(first, mem, holes) && Spaced(holes) && k < |holes| && node == Cursor(holes, k)
      modifies this`first, this`mem
      ensures Linked(first, mem, Substitute(holes, k, []))
      ensures forall w: nat :: w in old(mem) ==> w in mem && (mem[w] == old(mem[w]) || (node > 0 && w == node + 8))
    {
      assert NodeOf(mem, holes, k);
      if node == 0 {
        first := mem[first + 8];
      } else {
        assert NodeOf(mem, holes, k - 1);
        mem := mem[node + 8 := mem[mem[node + 8] + 8]];
      }
      UnlinkedIsLinked(old(first), old(mem), first, mem, holes, k);
    }

    /** Write a node at `addr` and link it behind `node`. */
    method InsertAfter(node: nat, addr: nat, size: nat, ghost holes: seq<HoleInfo>, ghost k: nat)
      requires Linked(first, mem, holes) && Spaced(holes) && k <= |holes| && node == Cursor(holes, k)
      requires Spaced(InsertAt(holes, k, HoleInfo(addr, size)))
      modifies this`first, this`mem
      ensures Linked(first, mem, InsertAt(holes, k, HoleInfo(addr, size)))
      ensures forall w: nat :: w in old(mem) ==>
                w in mem && (mem[w] == old(mem[w]) || w == addr || w == addr + 8 || (k > 0 && w == node + 8))
    {
      var next := Next(node, holes, k);
      mem := mem[addr := size][addr + 8 := next];
      if node == 0 {
        first := addr;
      } else {
        mem := mem[node + 8 := addr];
      }
      InsertedIsLinked(old(first), old(mem), first, mem, holes, k, HoleInfo(addr, size));
    }

    /** Walk the list to the first hole that can be split, and relink what is left of it. */
    method SplitFirstFit(layout: Layout, ghost holes: seq<HoleInfo>) returns (r: Option<HoleInfo>)
      requires Linked(first, mem, holes) && Canonical(holes) && Fitted(layout)
      modifies this`first, this`mem
      ensures r.None? <==> Allocated(holes, layout).None?
      ensures r.None? ==> first == old(first) && mem == old(mem)
      ensures r.Some? ==> r.value == Allocated(holes, layout).value.0
      ensures r.Some? ==> Linked(first, mem, Allocated(holes, layout).value.1)
      ensures WritesOnly(old(mem), mem, holes)
    {
      ghost var k := 0;
      var previous := 0;
      CanonicalSpaced(holes);
      while true
        invariant k <= |holes| && previous == Cursor(holes, k)
        invariant forall i :: 0 <= i < k ==> SplitHole(holes[i], layout).None?
        invariant first == old(first) && mem == old(mem)
        decreases |holes| - k
      {
        var current := Next(previous, holes, k);
        if current == 0 {
          FirstFitIs(holes, layout, k);
          return None;
        }
        assert NodeOf(mem, holes, k);
        var split := SplitHole(HoleInfo(current, mem[current]), layout);
        if split.Some? {
          FirstFitIs(holes, layout, k);
          SplitHoleTiles(holes[k], layout);
          LeftoversSpaced(holes, k, split.value);
          Relink(previous, split.value, holes, k);
          WritesInside(old(mem), mem, holes, k, split.value);
          return Some(split.value.info);
        }
        previous := current;
        k := k + 1;
      }
    }

    /** Allocate and account for the rounded size of the block. */
    method AllocateFirstFit(layout: Layout) returns (r: Option<nat>)
      requires Valid() && layout.Valid()
      modifies this
      ensures Valid() && lo == old(lo) && hi == old(hi)
      ensures state == Step(old(state), Alloc(layout))
      ensures layout.align > 0 && forall n: nat :: BlockSize(n, layout.size) ==> Served(old(state), layout, n, r, state)
      ensures WritesOnly(old(mem), mem, old(state).holes)
    {
      var fitted := AlignLayout(layout);
      ghost var after := Step(state, Alloc(layout));
      StepInv(state, Alloc(layout), lo, hi);
      AllocStep(state, layout);
      RequestServed(state, layout, fitted.size, lo, hi);
      var hole := SplitFirstFit(fitted, state.holes);
      state := after;
      if hole.None? {
        return None;
      }
      used := used + fitted.size;
      r := Some(hole.value.addr);
    }

    /** Change the size word of a node. */
    method Resize(node: nat, size: nat, ghost holes: seq<HoleInfo>, ghost k: nat)
      requires Linked(first, mem, holes) && Spaced(holes) && 0 < k <= |holes| && node == Cursor(holes, k)
      modifies this`mem
      ensures Linked(first, mem, Resized(holes, k - 1, size))
      ensures forall w: nat :: w in old(mem) ==> w in mem && (mem[w] == old(mem[w]) || w == node)
    {
      mem := mem[node := size];
      ResizedIsLinked(first, old(mem), mem, holes, k - 1, size);
    }

    /**
      Free a live block.  Freeing an address that already lies in a hole, as every second free
      of a block does, is refused and changes nothing.
     */
    method Deallocate(addr: nat, layout: Layout, ghost index: nat) returns (ok: bool)
      requires Valid() && layout.Valid() && 0 < addr && addr % HOLE_ALIGN == 0
      requires Covers(state.holes, addr) ||
               (index < |state.live| && state.live[index] == HoleInfo(addr, AlignLayout(layout).size))
      modifies this
      ensures Valid() && lo == old(lo) && hi == old(hi)
      ensures ok <==> !Covers(old(state).holes, addr)
      ensures state == if ok then Step(old(state), Free(index)) else old(state)
      ensures WritesOnly(old(mem), mem, old(state).holes + [HoleInfo(addr, AlignLayout(layout).size)])
    {
      var size := AlignLayout(layout).size;
      if !Covers(state.holes, addr) {
        LiveClear(state, lo, hi, index);
        FreeInv(state, index, lo, hi);
      }
      ok := Release(addr, size, state.holes);
      if ok {
        used := used - size;
        state := Step(state, Free(index));
      }
    }

    /** The owner of a live block writes one of its words. */
    method Store(word: nat, value: nat)
      requires Valid() && Covers(state.live, word)
      modifies this`mem
      ensures Valid() && mem == old(mem)[word := value]
    {
      mem := mem[word := value];
      forall i | 0 <= i < |state.holes| ensures NodeOf(mem, state.holes, i) {
        assert NodeOf(old(mem), state.holes, i);
        var h := state.holes[i];
        assert h.Has(h.addr) && Covers(state.holes, h.addr);
        assert h.Has(h.addr + 8) && Covers(state.holes, h.addr + 8);
      }
    }

    /**
      Give the bytes back, merging with the hole before and the hole behind.  The result is
      false where the source panics on its double-free assertion.
     */
    method Release(addr: nat, length: nat, ghost holes: seq<HoleInfo>) returns (ok: bool)
      requires Linked(first, mem, holes) && Walk(holes, 0, addr, length)
      modifies this`first, this`mem
      ensures ok <==> !Covers(holes, addr)
      ensures !ok ==> first == old(first) && mem == old(mem)
      ensures ok ==> Linked(first, mem, Released(holes, addr, length))
      ensures WritesOnly(old(mem), mem, holes + [HoleInfo(addr, length)])
    {
      var hole, size := 0, length;
      ghost var cur, k := holes, 0;
      while true
        invariant Releasing(holes, addr, length, cur, size, k) && hole == Cursor(cur, k) && Linked(first, mem, cur)
        invariant Covers(holes, addr) ==> first == old(first) && mem == old(mem)
        invariant WritesOnly(old(mem), mem, holes + [HoleInfo(addr, length)])
        decreases |cur| - k
      {
        ghost var before := mem;
        ReleasingNext(holes, addr, length, cur, size, k);
        ghost var progress := ReleaseNext(cur, k, addr, size);
        var outcome;
        outcome, hole, size := ReleaseStep(hole, addr, size, cur, k);
        WritesExtend(old(mem), before, mem, holes, HoleInfo(addr, length), cur, k);
        if outcome == Stop {
          return false;
        } else if outcome == Finish {
          return true;
        }
        cur, k := progress.list, progress.k;
      }
    }

    /** One iteration of the release loop at the node before position `k`. */
    method ReleaseStep(hole: nat, addr: nat, size: nat, ghost cur: seq<HoleInfo>, ghost k: nat)
      returns (outcome: Outcome, hole': nat, size': nat)
      requires k <= |cur| && Linked(first, mem, cur) && hole == Cursor(cur, k) && 0 < addr
      requires Spaced(cur)
      requires ReleaseNext(cur, k, addr, size).Done? ==> Spaced(ReleaseNext(cur, k, addr, size).list)
      modifies this`first, this`mem
      ensures
        match ReleaseNext(cur, k, addr, size)
        case Panicked => outcome == Stop && first == old(first) && mem == old(mem)
        case Done(list) => outcome == Finish && Linked(first, mem, list)
        case Again(list, n, size1) =>
          && outcome == Continue && Linked(first, mem, list) && hole' == Cursor(list, n) && size' == size1
          && (n == k + 1 ==> first == old(first) && mem == old(mem))
      ensures StepWrites(old(mem), mem, addr, hole)
    {
      hole', size' := hole, size;
      assert k > 0 ==> NodeOf(mem, cur, k - 1);
      var holeEnd := if hole == 0 then 0 else hole + mem[hole];
      if holeEnd > addr {
        outcome := Stop;
        return;
      }
      var next := Next(hole, cur, k);
      assert k < |cur| ==> NodeOf(mem, cur, k);
      if next != 0 && holeEnd == addr && addr + size == next {
        ghost var r := MergeBoth(hole, next, size, cur, k);
        outcome := Finish;
      } else if holeEnd == addr {
        Resize(hole, mem[hole] + size, cur, k);
        outcome := Finish;
      } else if next != 0 && addr + size == next {
        size' := size + mem[next];
        UnlinkNext(hole, cur, k);
        outcome := Continue;
      } else if next != 0 && next <= addr {
        hole' := next;
        outcome := Continue;
      } else {
        InsertAfter(hole, addr, size, cur, k);
        outcome := Finish;
      }
    }

    /** The block fills the gap: grow the hole before it and drop the hole behind it. */
    method MergeBoth(hole: nat, next: nat, size: nat, ghost cur: seq<HoleInfo>, ghost k: nat)
      returns (ghost r: seq<HoleInfo>)
      requires 0 < k < |cur| && Linked(first, mem, cur) && Spaced(cur)
      requires hole == Cursor(cur, k) && next == cur[k].addr
      modifies this`first, this`mem
      ensures r == Substitute(Resized(cur, k - 1, cur[k - 1].size + (size + cur[k].size)), k, [])
      ensures Linked(first, mem, r)
      ensures forall w: nat :: w in old(mem) ==>
                w in mem && (mem[w] == old(mem[w]) || w == hole || w == hole + 8)
    {
      assert NodeOf(mem, cur, k - 1);
      assert NodeOf(mem, cur, k);
      var total := mem[hole] + (size + mem[next]);
      assert total == cur[k - 1].size + (size + cur[k].size);
      ResizedSpaced(cur, k - 1, total);
      Resize(hole, total, cur, k);
      UnlinkNext(hole, Resized(cur, k - 1, total), k);
      r := Substitute(Resized(cur, k - 1, total), k, []);
    }

    /** Replace the hole behind `previous` by its front and back leftovers. */
    method Relink(previous: nat, a: Allocation, ghost holes: seq<HoleInfo>, ghost k: nat)
      requires k < |holes| && Linked(first, mem, holes) && previous == Cursor(holes, k)
      requires Spaced(holes) && Spaced(Substitute(holes, k, []))
      requires Spaced(Substitute(holes, k, Opt(a.front)))
      requires Spaced(Substitute(holes, k, Leftovers(a)))
      modifies this`first, this`mem
      ensures Linked(first, mem, Substitute(holes, k, Leftovers(a)))
      ensures NodeWrites(old(mem), mem, previous, a)
    {
      ghost var h0, h1, h2 := Substitute(holes, k, []), Substitute(holes, k, Opt(a.front)), Substitute(holes, k, Leftovers(a));
      LeftoversChain(holes, k, a);
      UnlinkNext(previous, holes, k);
      var node := InsertLeftover(previous, a.front, h0, k, h1);
      node := InsertLeftover(node, a.back, h1, k + |Opt(a.front)|, h2);
    }

    /** Link a leftover, if there is one, behind `node`. */
    method InsertLeftover(node: nat, padding: Option<HoleInfo>, ghost h: seq<HoleInfo>, ghost n: nat, ghost h': seq<HoleInfo>)
      returns (node': nat)
      requires n <= |h| && Linked(first, mem, h) && Spaced(h) && node == Cursor(h, n)
      requires h' == PutIn(h, n, padding) && Spaced(h')
      modifies this`first, this`mem
      ensures Linked(first, mem, h') && node' == Cursor(h', n + |Opt(padding)|)
      ensures node' == if padding.Some? then padding.value.addr else node
      ensures forall w: nat :: w in old(mem) ==>
                w in mem && (mem[w] == old(mem[w]) ||
                (padding.Some? && (w == padding.value.addr || w == padding.value.addr + 8 || (node > 0 && w == node + 8))))
    {
      if padding.None? {
        return node;
      }
      InsertAfter(node, padding.value.addr, padding.value.size, h, n);
      node' := padding.value.addr;
    }
  }

  function PutIn(h: seq<HoleInfo>, n: nat, padding: Option<HoleInfo>): (r: seq<HoleInfo>)
    requires n <= |h|
  {
    match padding case None => h case Some(p) => InsertAt(h, n, p)
  }

  lemma LeftoversChain(holes: seq<HoleInfo>, k: nat, a: Allocation)
    requires k < |holes|
    ensures
      var h0, h1, h2 := Substitute(holes, k, []), Substitute(holes, k, Opt(a.front)), Substitute(holes, k, Leftovers(a));
      h1 == PutIn(h0, k, a.front) && h2 == PutIn(h1, k + |Opt(a.front)|, a.back)
  {
    if a.front.Some? {
      SubstituteInsert(holes, k, [], a.front.value);
      assert [] + [a.front.value] == Opt(a.front);
    }
    if a.back.Some? {
      SubstituteInsert(holes, k, Opt(a.front), a.back.value);
    } else {
      assert Leftovers(a) == Opt(a.front);
    }
  }

  lemma UnlinkedIsLinked(f: nat, m: Words, f': nat, m': Words, holes: seq<HoleInfo>, k: nat)
    requires Linked(f, m, holes) && Spaced(holes) && k < |holes|
    requires if k == 0 then m' == m && f' == NextAddr(holes, 0)
             else f' == f && m' == m[holes[k - 1].addr + 8 := NextAddr(holes, k)]
    ensures Linked(f', m', Substitute(holes, k, []))
  {
    assert Substitute(holes, k, []) == holes[..k] + holes[k + 1..];
    var r := holes[..k] + holes[k + 1..];
    forall i | 0 <= i < |r| ensures NodeOf(m', r, i) {
      UnlinkedNode(f, m, m', holes, k, i);
    }
  }

  lemma UnlinkedNode(f: nat, m: Words, m': Words, holes: seq<HoleInfo>, k: nat, i: nat)
    requires Linked(f, m, holes) && Spaced(holes) && k < |holes| && i < |holes| - 1
    requires m' == if k == 0 then m else m[holes[k - 1].addr + 8 := NextAddr(holes, k)]
    ensures var r := holes[..k] + holes[k + 1..];
            NodeOf(m', r, i)
  {
    var r := holes[..k] + holes[k + 1..];
    var j := if i < k then i else i + 1;
    assert r[i] == holes[j];
    assert NextAddr(r, i) == if i + 1 == k then NextAddr(holes, k) else NextAddr(holes, j);
    assert NodeOf(m, holes, j);
    if k > 0 {
      NodesApart(holes, k - 1, j);
    }
  }

  lemma NodesApart(holes: seq<HoleInfo>, i: nat, j: nat)
    requires Spaced(holes) && i < |holes| && j < |holes|
    ensures i != j ==> holes[i].addr + 16 <= holes[j].addr || holes[j].addr + 16 <= holes[i].addr
  {
    assert i < j ==> NodeBelow(holes[i], holes[j]);
    assert j < i ==> NodeBelow(holes[j], holes[i]);
  }

  lemma InsertedIsLinked(f: nat, m: Words, f': nat, m': Words, holes: seq<HoleInfo>, k: nat, h: HoleInfo)
    requires Linked(f, m, holes) && k <= |holes|
    requires Spaced(InsertAt(holes, k, h))
    requires var m1 := m[h.addr := h.size][h.addr + 8 := if k < |holes| then holes[k].addr else 0];
             if k == 0 then m' == m1 && f' == h.addr
             else f' == f && m' == m1[holes[k - 1].addr + 8 := h.addr]
    ensures Linked(f', m', InsertAt(holes, k, h))
  {
    var r := InsertAt(holes, k, h);
    forall i | 0 <= i < |r| ensures NodeOf(m', r, i) {
      InsertedNode(f, m, m', holes, k, h, i);
    }
  }

  lemma InsertedNode(f: nat, m: Words, m': Words, holes: seq<HoleInfo>, k: nat, h: HoleInfo, i: nat)
    requires Linked(f, m, holes) && i <= |holes| && k <= |holes|
    requires Spaced(InsertAt(holes, k, h))
    requires var m1 := m[h.addr := h.size][h.addr + 8 := if k < |holes| then holes[k].addr else 0];
             m' == if k == 0 then m1 else m1[holes[k - 1].addr + 8 := h.addr]
    ensures var r := InsertAt(holes, k, h);
            NodeOf(m', r, i)
  {
    var r := InsertAt(holes, k, h);
    assert r[k] == h;
    if k > 0 {
      assert r[k - 1] == holes[k - 1];
      NodesApart(r, k - 1, i);
      NodesApart(r, k - 1, k);
    }
    if i == k {
      assert NextAddr(r, i) == if k < |holes| then holes[k].addr else 0;
    } else {
      NodesApart(r, i, k);
      var j := if i < k then i else i - 1;
      assert r[i] == holes[j];
      assert NextAddr(r, i) == if i + 1 == k then h.addr else NextAddr(holes, j);
      assert NodeOf(m, holes, j);
    }
  }

  lemma CanonicalSpaced(holes: seq<HoleInfo>)
    requires Canonical(holes)
    ensures Spaced(holes)
  {
    forall i, j | 0 <= i < j < |holes| ensures NodeBelow(holes[i], holes[j]) {
      InOrder(holes, i, j);
    }
  }

  lemma {:induction false} FirstFitIs(holes: seq<HoleInfo>, layout: Layout, k: nat)
    requires layout.align > 0 && k <= |holes|
    requires forall i :: 0 <= i < k ==> SplitHole(holes[i], layout).None?
    requires k < |holes| ==> SplitHole(holes[k], layout).Some?
    ensures FirstFitIndex(holes, layout) == k
  {
    var f := FirstFitIndex(holes, layout);
    assert f < k || k < f || f == k;
  }

  lemma AllocStep(s: State, layout: Layout)
    requires layout.Valid()
    ensures
      match Allocated(s.holes, AlignLayout(layout))
      case None => Step(s, Alloc(layout)) == s
      case Some((_, rest)) => Step(s, Alloc(layout)).holes == rest && Step(s, Alloc(layout)).used == s.used + AlignLayout(layout).size
  {
  }

  lemma SubstituteInsert(holes: seq<HoleInfo>, k: nat, s: seq<HoleInfo>, p: HoleInfo)
    requires k < |holes|
    ensures var h := Substitute(holes, k, s);
            InsertAt(h, k + |s|, p) == Substitute(holes, k, s + [p])
  {
  }

  lemma LeftoversSpaced(holes: seq<HoleInfo>, k: nat, a: Allocation)
    requires Canonical(holes) && k < |holes| && Tiles(a, holes[k]) && Canonical(Leftovers(a)) && ValidHole(a.info)
    ensures Spaced(holes) && Spaced(Substitute(holes, k, []))
    ensures Spaced(Substitute(holes, k, Opt(a.front)))
    ensures Spaced(Substitute(holes, k, Leftovers(a)))
  {
    CanonicalSpaced(holes);
    SubstituteCanonical(holes, k, []);
    CanonicalSpaced(Substitute(holes, k, []));
    SubstituteCanonical(holes, k, Leftovers(a));
    CanonicalSpaced(Substitute(holes, k, Leftovers(a)));
    if a.front.Some? {
      assert Leftovers(a)[0] == a.front.value;
    }
    SubstituteCanonical(holes, k, Opt(a.front));
    CanonicalSpaced(Substitute(holes, k, Opt(a.front)));
  }

  /** Only the words of the leftover nodes and the link of `previous` may differ. */
  ghost predicate NodeWrites(m: Words, m': Words, previous: nat, a: Allocation) {
    forall w: nat :: w in m ==>
      w in m' && (m'[w] == m[w]
      || (a.front.Some? && (w == a.front.value.addr || w == a.front.value.addr + 8))
      || (a.back.Some? && (w == a.back.value.addr || w == a.back.value.addr + 8))
      || (previous > 0 && w == previous + 8))
  }

  lemma WritesInside(m: Words, m': Words, holes: seq<HoleInfo>, k: nat, a: Allocation)
    requires Canonical(holes) && k < |holes| && Tiles(a, holes[k]) && Canonical(Leftovers(a)) && ValidHole(a.info)
    requires NodeWrites(m, m', Cursor(holes, k), a)
    ensures WritesOnly(m, m', holes)
  {
    if a.front.Some? {
      assert ValidHole(Leftovers(a)[0]);
    }
    if a.back.Some? {
      assert ValidHole(Leftovers(a)[|Leftovers(a)| - 1]);
    }
    forall w: nat | w in m && m'[w] != m[w] ensures Covers(holes, w) {
      assert holes[k].Has(w) || (k > 0 && holes[k - 1].Has(w));
    }
  }

  lemma ResizedIsLinked(f: nat, m: Words, m': Words, holes: seq<HoleInfo>, k: nat, size: nat)
    requires Linked(f, m, holes) && Spaced(holes) && k < |holes|
    requires m' == m[holes[k].addr := size]
    ensures Linked(f, m', Resized(holes, k, size))
  {
    var r := Resized(holes, k, size);
    forall i | 0 <= i < |r| ensures NodeOf(m', r, i) {
      assert NodeOf(m, holes, i);
      assert NextAddr(r, i) == NextAddr(holes, i);
      NodesApart(holes, i, k);
    }
  }

  datatype Outcome = Stop | Finish | Continue

  datatype Progress = Panicked | Done(list: seq<HoleInfo>) | Again(list: seq<HoleInfo>, k: nat, size: nat)

  /** One iteration of the release loop on the list of holes. */
  function ReleaseNext(cur: seq<HoleInfo>, k: nat, addr: nat, size: nat): (r: Progress)
    requires k <= |cur| && 0 < addr
  {
    var holeEnd := if k == 0 then 0 else cur[k - 1].End();
    if holeEnd > addr then
      Panicked
    else if k < |cur| && holeEnd == addr && addr + size == cur[k].addr then
      Done(Substitute(Resized(cur, k - 1, cur[k - 1].size + (size + cur[k].size)), k, []))
    else if holeEnd == addr then
      Done(Resized(cur, k - 1, cur[k - 1].size + size))
    else if k < |cur| && addr + size == cur[k].addr then
      Again(Substitute(cur, k, []), k, size + cur[k].size)
    else if k < |cur| && cur[k].addr <= addr then
      Again(cur, k + 1, size)
    else
      Done(InsertAt(cur, k, HoleInfo(addr, size)))
  }

  lemma ReleaseNextSound(cur: seq<HoleInfo>, k: nat, addr: nat, size: nat)
    requires Walk(cur, k, addr, size)
    ensures Spaced(cur)
    ensures
      match ReleaseNext(cur, k, addr, size)
      case Panicked => Covers(cur, addr)
      case Done(list) =>
        !Covers(cur, addr) && Canonical(list) && Spaced(list) && Absorbed(cur, HoleInfo(addr, size), list)
      case Again(list, n, size') =>
        && Walk(list, n, addr, size') && SameUnion(addr, cur, size, list, size') && |list| - n < |cur| - k
        && (Covers(cur, addr) ==> list == cur && size' == size && n == k + 1)
        && (!Covers(cur, addr) ==> !Covers(list, addr))
        && (forall i :: 0 <= i < |list| ==> list[i] in cur)
  {
    CanonicalSpaced(cur);
    var holeEnd := if k == 0 then 0 else cur[k - 1].End();
    if holeEnd > addr {
      assert cur[k - 1].Has(addr);
    } else if k < |cur| && holeEnd == addr && addr + size == cur[k].addr {
      MergedBoth(cur, k, addr, size);
    } else if holeEnd == addr {
      MergedLeft(cur, k, addr, size);
    } else if k < |cur| && addr + size == cur[k].addr {
      AbsorbRight(cur, k, addr, size);
    } else if k < |cur| && cur[k].addr <= addr {
    } else {
      Inserted(cur, k, addr, size);
    }
    if ReleaseNext(cur, k, addr, size).Done? {
      CanonicalSpaced(ReleaseNext(cur, k, addr, size).list);
    }
  }

  /** The walk has reached position `k` and still has `size` bytes at `addr` to give back. */
  ghost predicate Walk(cur: seq<HoleInfo>, k: nat, addr: nat, size: nat) {
    && k <= |cur| && Canonical(cur) && ValidHole(HoleInfo(addr, size))
    && (k > 0 ==> cur[k - 1].addr <= addr)
    && (Covers(cur, addr) || DisjointFrom(HoleInfo(addr, size), cur))
  }

  /** Holes plus the block still to be given back cover the same bytes. */
  ghost predicate SameUnion(addr: nat, s: seq<HoleInfo>, n: nat, s': seq<HoleInfo>, n': nat) {
    forall b: int :: Covers(s, b) || HoleInfo(addr, n).Has(b) <==> Covers(s', b) || HoleInfo(addr, n').Has(b)
  }

  ghost predicate Absorbed(s: seq<HoleInfo>, block: HoleInfo, s': seq<HoleInfo>) {
    forall b: int :: Covers(s', b) <==> Covers(s, b) || block.Has(b)
  }

  /** Only one canonical list has the right bytes. */
  lemma ReleasedIs(holes: seq<HoleInfo>, addr: nat, size: nat, r: seq<HoleInfo>)
    requires Walk(holes, 0, addr, size) && !Covers(holes, addr)
    requires Canonical(r) && Absorbed(holes, HoleInfo(addr, size), r)
    ensures r == Released(holes, addr, size)
  {
    ReleasedExact(holes, addr, size);
    CanonicalUnique(r, Released(holes, addr, size));
  }

  /** What the release loop keeps, and what each of its iterations makes of it. */
  ghost predicate Releasing(holes: seq<HoleInfo>, addr: nat, length: nat, cur: seq<HoleInfo>, size: nat, k: nat) {
    && Walk(holes, 0, addr, length) && Walk(cur, k, addr, size)
    && SameUnion(addr, holes, length, cur, size)
    && (Covers(holes, addr) ==> cur == holes) && (Covers(cur, addr) ==> Covers(holes, addr))
    && (forall i :: 0 <= i < |cur| ==> cur[i] in holes)
  }

  lemma ReleasingNext(holes: seq<HoleInfo>, addr: nat, length: nat, cur: seq<HoleInfo>, size: nat, k: nat)
    requires Releasing(holes, addr, length, cur, size, k)
    ensures Spaced(cur)
    ensures
      match ReleaseNext(cur, k, addr, size)
      case Panicked => Covers(holes, addr)
      case Done(list) => !Covers(holes, addr) && Spaced(list) && list == Released(holes, addr, length)
      case Again(list, n, size') =>
        && Releasing(holes, addr, length, list, size', n) && |list| - n < |cur| - k
        && (Covers(holes, addr) ==> n == k + 1)
  {
    ReleaseNextSound(cur, k, addr, size);
    match ReleaseNext(cur, k, addr, size)
    case Panicked =>
    case Done(list) =>
      ReleasedIs(holes, addr, length, list);
    case Again(list, n, size') =>
  }

  /** Putting a larger hole in place of the holes `i..j` it covers. */
  lemma Spliced(cur: seq<HoleInfo>, i: nat, j: nat, h: HoleInfo, block: HoleInfo, r: seq<HoleInfo>)
    requires Canonical(cur) && i <= j <= |cur| && ValidHole(h)
    requires i > 0 ==> cur[i - 1].End() < h.addr
    requires j < |cur| ==> h.End() < cur[j].addr
    requires forall b: int :: h.Has(b) <==> Covers(cur[i..j], b) || block.Has(b)
    requires r == cur[..i] + [h] + cur[j..]
    ensures Canonical(r) && Absorbed(cur, block, r)
  {
    if i > 0 { AllInOrder(cur, i - 1); }
    if j < |cur| { AllInOrder(cur, j); }
    JoinCanonical(cur[..i], h, cur[j..]);
    forall b: int ensures Covers(cur[..i] + [h] + cur[j..], b) <==> Covers(cur, b) || block.Has(b) {
      JoinCovers(cur[..i], h, cur[j..], b);
      CoversThree(cur, i, j, b);
    }
  }

  /** The walk has found the gap the block lies in. */
  lemma InGap(cur: seq<HoleInfo>, k: nat, addr: nat)
    requires Canonical(cur) && k <= |cur|
    requires k > 0 ==> cur[k - 1].End() <= addr
    requires k < |cur| ==> addr < cur[k].addr
    ensures !Covers(cur, addr)
  {
    if k > 0 { AllInOrder(cur, k - 1); }
    if k < |cur| { AllInOrder(cur, k); }
  }

  lemma MergedBoth(cur: seq<HoleInfo>, k: nat, addr: nat, size: nat)
    requires Walk(cur, k, addr, size) && 0 < k < |cur|
    requires cur[k - 1].End() == addr && addr + size == cur[k].addr
    ensures
      var total := cur[k - 1].size + (size + cur[k].size);
      var r := Substitute(Resized(cur, k - 1, total), k, []);
      !Covers(cur, addr) && Canonical(r) && Absorbed(cur, HoleInfo(addr, size), r)
  {
    var total := cur[k - 1].size + (size + cur[k].size);
    var h := HoleInfo(cur[k - 1].addr, total);
    AllInOrder(cur, k - 1);
    AllInOrder(cur, k);
    InGap(cur, k, addr);
    BothCover(cur, k, addr, size);
    ResizedUnlinked(cur, k, total);
    Spliced(cur, k - 1, k + 1, h, HoleInfo(addr, size), Substitute(Resized(cur, k - 1, total), k, []));
  }

  lemma BothCover(cur: seq<HoleInfo>, k: nat, addr: nat, size: nat)
    requires 0 < k < |cur| && cur[k - 1].End() == addr && addr + size == cur[k].addr
    ensures
      var h := HoleInfo(cur[k - 1].addr, cur[k - 1].size + (size + cur[k].size));
      forall b: int :: h.Has(b) <==> Covers(cur[k - 1..k + 1], b) || HoleInfo(addr, size).Has(b)
  {
    var h := HoleInfo(cur[k - 1].addr, cur[k - 1].size + (size + cur[k].size));
    forall b: int ensures h.Has(b) <==> Covers(cur[k - 1..k + 1], b) || HoleInfo(addr, size).Has(b) {
      CoversPair(cur, k, b);
    }
  }

  lemma CoversPair(cur: seq<HoleInfo>, k: nat, b: int)
    requires 0 < k < |cur|
    ensures Covers(cur[k - 1..k + 1], b) <==> cur[k - 1].Has(b) || cur[k].Has(b)
  {
    assert cur[k - 1..k + 1] == [cur[k - 1]] + [cur[k]];
    CoversAppend([cur[k - 1]], [cur[k]], b);
    CoversOne(cur[k - 1], b);
    CoversOne(cur[k], b);
  }

  lemma ResizedSplice(cur: seq<HoleInfo>, k: nat, size: nat)
    requires 0 < k <= |cur|
    ensures Resized(cur, k - 1, size) == cur[..k - 1] + [HoleInfo(cur[k - 1].addr, size)] + cur[k..]
  {
  }

  lemma ResizedUnlinked(cur: seq<HoleInfo>, k: nat, size: nat)
    requires 0 < k < |cur|
    ensures Substitute(Resized(cur, k - 1, size), k, []) ==
            cur[..k - 1] + [HoleInfo(cur[k - 1].addr, size)] + cur[k + 1..]
  {
  }

  lemma ResizedSpaced(cur: seq<HoleInfo>, k: nat, size: nat)
    requires Spaced(cur) && k < |cur|
    ensures Spaced(Resized(cur, k, size))
  {
    var r := Resized(cur, k, size);
    forall i, j | 0 <= i < j < |r| ensures NodeBelow(r[i], r[j]) {
      assert NodeBelow(cur[i], cur[j]);
    }
  }

  lemma MergedLeft(cur: seq<HoleInfo>, k: nat, addr: nat, size: nat)
    requires Walk(cur, k, addr, size) && 0 < k
    requires cur[k - 1].End() == addr && (k < |cur| ==> addr + size != cur[k].addr)
    ensures
      var r := Resized(cur, k - 1, cur[k - 1].size + size);
      !Covers(cur, addr) && Canonical(r) && Absorbed(cur, HoleInfo(addr, size), r)
  {
    AllInOrder(cur, k - 1);
    InGap(cur, k, addr);
    var h := HoleInfo(cur[k - 1].addr, cur[k - 1].size + size);
    forall b: int ensures h.Has(b) <==> Covers(cur[k - 1..k], b) || HoleInfo(addr, size).Has(b) {
      assert cur[k - 1..k] == [cur[k - 1]];
      CoversOne(cur[k - 1], b);
    }
    ResizedSplice(cur, k, h.size);
    Spliced(cur, k - 1, k, h, HoleInfo(addr, size), Resized(cur, k - 1, h.size));
  }

  lemma Inserted(cur: seq<HoleInfo>, k: nat, addr: nat, size: nat)
    requires Walk(cur, k, addr, size)
    requires k > 0 ==> cur[k - 1].End() < addr
    requires k < |cur| ==> addr < cur[k].addr && addr + size != cur[k].addr
    ensures
      var r := InsertAt(cur, k, HoleInfo(addr, size));
      !Covers(cur, addr) && Canonical(r) && Absorbed(cur, HoleInfo(addr, size), r)
  {
    InGap(cur, k, addr);
    Spliced(cur, k, k, HoleInfo(addr, size), HoleInfo(addr, size), InsertAt(cur, k, HoleInfo(addr, size)));
  }

  lemma AbsorbRight(cur: seq<HoleInfo>, k: nat, addr: nat, size: nat)
    requires Walk(cur, k, addr, size) && k < |cur|
    requires k > 0 ==> cur[k - 1].End() < addr
    requires addr + size == cur[k].addr
    ensures
      var r := Substitute(cur, k, []);
      && !Covers(cur, addr) && !Covers(r, addr) && Walk(r, k, addr, size + cur[k].size)
      && SameUnion(addr, cur, size, r, size + cur[k].size)
      && (forall i :: 0 <= i < |r| ==> r[i] in cur)
  {
    InGap(cur, k, addr);
    var r := Substitute(cur, k, []);
    SubstituteCanonical(cur, k, []);
    forall b: int
      ensures Covers(r, b) <==> Covers(cur, b) && !cur[k].Has(b)
      ensures cur[k].Has(b) ==> Covers(cur, b)
    {
      SubstituteCovers(cur, k, [], b);
    }
    var block := HoleInfo(addr, size + cur[k].size);
    AllInOrder(cur, k);
    forall i | 0 <= i < |r| ensures r[i] in cur && (block.End() <= r[i].addr || r[i].End() <= addr) {
      SubstituteAt(cur, k, [], i);
      assert DisjointFrom(HoleInfo(addr, size), cur);
    }
  }

  /** Only the words of the freed block's node and of the node at `hole` may differ. */
  ghost predicate StepWrites(m: Words, m': Words, addr: nat, hole: nat) {
    forall w: nat :: w in m ==>
      w in m' && (m'[w] == m[w] || w == addr || w == addr + 8 || (hole > 0 && (w == hole || w == hole + 8)))
  }

  lemma WritesExtend(m: Words, m1: Words, m2: Words, holes: seq<HoleInfo>, block: HoleInfo, cur: seq<HoleInfo>, k: nat)
    requires ValidHole(block) && Canonical(cur) && k <= |cur|
    requires forall i :: 0 <= i < |cur| ==> cur[i] in holes
    requires WritesOnly(m, m1, holes + [block]) && StepWrites(m1, m2, block.addr, Cursor(cur, k))
    ensures WritesOnly(m, m2, holes + [block])
  {
    NodesCovered(holes, block, cur, k);
  }

  lemma NodesCovered(holes: seq<HoleInfo>, block: HoleInfo, cur: seq<HoleInfo>, k: nat)
    requires ValidHole(block) && Canonical(cur) && k <= |cur|
    requires forall i :: 0 <= i < |cur| ==> cur[i] in holes
    ensures Covers(holes + [block], block.addr) && Covers(holes + [block], block.addr + 8)
    ensures k > 0 ==> Covers(holes + [block], cur[k - 1].addr) && Covers(holes + [block], cur[k - 1].addr + 8)
  {
    var s := holes + [block];
    assert s[|holes|] == block && block.Has(block.addr) && block.Has(block.addr + 8);
    if k > 0 {
      var i :| 0 <= i < |holes| && holes[i] == cur[k - 1];
      assert s[i].Has(cur[k - 1].addr) && s[i].Has(cur[k - 1].addr + 8);
    }
  }

  /** Neither call touches a word of a block that stays live. */
  lemma LiveWordsKept(s: State, lo: nat, hi: nat, m: Words, m': Words, freed: seq<HoleInfo>, w: nat)
    requires Inv(s, lo, hi) && WritesOnly(m, m', s.holes + freed)
    requires w in m && Covers(s.live, w) && !Covers(freed, w)
    ensures w in m' && m'[w] == m[w]
  {
    CoversAppend(s.holes, freed, w);
  }
}
