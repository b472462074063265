/**
  The hidden invariant of the virtqueue: with one chain length `n`, descriptors are taken and
  returned in aligned blocks of `n`, so links always point inside a block.
 */
module VirtqueueBlocks {
  import opened Sequences
  import opened Virtqueue

  /** The first descriptor of the block that `d` lies in. */
  function Start(d: nat, n: nat): (h: nat)
    requires n > 0
    ensures h <= d < h + n
    decreases d
  {
    if d < n then 0 else n + Start(d - n, n)
  }

  /** The number of whole blocks in a table. */
  function Blocks(size: nat, n: nat): (k: nat)
    requires n > 0
    ensures k <= size
    decreases size
  {
    if size < n then 0 else 1 + Blocks(size - n, n)
  }

  ghost predicate IsBlock(h: nat, n: nat, size: nat)
    requires n > 0
  {
    h + n <= size && Start(h, n) == h
  }

  /** Blocks do not overlap: a descriptor inside a block has that block's start. */
  lemma {:induction false} StartIs(h: nat, d: nat, n: nat)
    requires n > 0 && Start(h, n) == h && h <= d < h + n
    ensures Start(d, n) == h
    decreases h
  {
    if h >= n {
      StartIs(h - n, d - n, n);
    }
  }

  lemma {:induction false} StartIdem(d: nat, n: nat)
    requires n > 0
    ensures Start(Start(d, n), n) == Start(d, n)
    decreases d
  {
    if d >= n {
      StartIdem(d - n, n);
    }
  }

  // --- Counting blocks ---------------------------------------------------------------------------

  ghost function BlockSet(size: nat, n: nat): (s: set<nat>)
    requires n > 0
  {
    set h: nat | h < size && IsBlock(h, n, size)
  }

  lemma {:induction false} BlockSetSize(size: nat, n: nat)
    requires n > 0
    ensures |BlockSet(size, n)| == Blocks(size, n)
    decreases size
  {
    if size < n {
      assert BlockSet(size, n) == {};
    } else {
      BlockSetSize(size - n, n);
      var last := Start(size - n, n);
      StartIdem(size - n, n);
      forall h: nat | h < size && IsBlock(h, n, size) && h != last ensures IsBlock(h, n, size - n) {
        if size - n < h + n {
          StartIs(h, size - n, n);
        }
      }
      assert BlockSet(size, n) == BlockSet(size - n, n) + {last};
    }
  }

  ghost function Elems(s: seq<nat>): (r: set<nat>) {
    set x: nat | x in s
  }

  lemma {:induction false} DistinctSize(s: seq<nat>)
    requires Distinct(s)
    ensures |Elems(s)| == |s|
  {
    if s != [] {
      var init, last := s[..|s| - 1], s[|s| - 1];
      assert s == init + [last];
      DistinctParts(init, [last]);
      DistinctSize(init);
      assert Elems(s) == Elems(init) + {last};
      assert last !in Elems(init);
    } else {
      assert Elems(s) == {};
    }
  }

  /** Distinct blocks fill the table exactly when there are as many as fit. */
  lemma RoomIff(order: seq<nat>, n: nat, size: nat)
    requires n > 0 && Distinct(order) && forall h :: h in order ==> IsBlock(h, n, size)
    ensures |order| <= Blocks(size, n)
    ensures |order| < Blocks(size, n) <==> exists h: nat :: h !in order && IsBlock(h, n, size)
  {
    var taken := Elems(order);
    DistinctSize(order);
    BlockSetSize(size, n);
    SubsetSize(taken, BlockSet(size, n));
    var all := BlockSet(size, n);
    if forall h :: h in all ==> h in taken {
      assert all == taken;
    } else {
      var h :| h in all && h !in taken;
      assert h !in order && IsBlock(h, n, size);
    }
    if h: nat :| h !in order && IsBlock(h, n, size) {
      assert h in BlockSet(size, n) && h !in taken;
    }
  }

  // --- Taking a block ------------------------------------------------------------------------------

  function Range(h: nat, k: nat): (r: seq<nat>) {
    seq(k, i requires 0 <= i < k => h + i)
  }

  /** Block-wise availability. */
  ghost predicate FreeOk(free: seq<bool>, n: nat, heads: set<nat>)
    requires n > 0
  {
    forall d :: 0 <= d < |free| ==> free[d] == (Start(d, n) !in heads)
  }

  lemma {:induction false} GrabBlock(free: seq<bool>, h: nat, k: nat)
    requires h + k <= |free| && (forall d :: 0 <= d < h ==> !free[d]) && (forall d :: h <= d < h + k ==> free[d])
    ensures
      var (ids, rest) := Grab(free, k);
      && ids == Range(h, k)
      && (forall d :: 0 <= d < |free| ==> rest[d] == (free[d] && !(h <= d < h + k)))
  {
    if k > 0 {
      GrabBlock(free, h, k - 1);
      var (ids, rest) := Grab(free, k - 1);
      assert rest[h + k - 1] && rest[First(rest)] && First(rest) == h + k - 1;
      assert Range(h, k) == Range(h, k - 1) + [h + k - 1];
    }
  }

  /** `push` finds the lowest free block if there is one, and otherwise finds too few descriptors. */
  lemma GrabLowestBlock(free: seq<bool>, n: nat, heads: set<nat>)
    requires n > 0 && FreeOk(free, n, heads)
    ensures
      var h := First(free);
      var (ids, rest) := Grab(free, n);
      if h + n <= |free| then
        IsBlock(h, n, |free|) && h !in heads && ids == Range(h, n) && FreeOk(rest, n, heads + {h})
      else
        |ids| < n
  {
    var h := First(free);
    var (ids, rest) := Grab(free, n);
    if h < |free| {
      StartIdem(h, n);
      assert Start(h, n) == h;
    }
    if h + n <= |free| {
      forall d | h <= d < h + n ensures free[d] {
        StartIs(h, d, n);
      }
      GrabBlock(free, h, n);
      forall d | 0 <= d < |free| ensures rest[d] == (Start(d, n) !in heads + {h}) {
        if h <= d < h + n {
          StartIs(h, d, n);
        }
      }
    } else {
      GrabAbove(free, n, h);
      GrabExact(free, n);
      AscendingAbove(ids, h, |free|);
    }
  }

  /** No free block is left exactly if the blocks in use fill the table. */
  lemma FirstFits(free: seq<bool>, n: nat, heads: set<nat>, order: seq<nat>)
    requires n > 0 && FreeOk(free, n, heads) && Distinct(order)
    requires forall h :: h in heads <==> h in order
    requires forall h :: h in order ==> IsBlock(h, n, |free|)
    ensures First(free) + n <= |free| <==> |order| < Blocks(|free|, n)
    ensures |order| <= Blocks(|free|, n)
  {
    RoomIff(order, n, |free|);
    GrabLowestBlock(free, n, heads);
    if h: nat :| h !in order && IsBlock(h, n, |free|) {
      assert free[h];
    }
  }

  lemma {:induction false} GrabAbove(free: seq<bool>, k: nat, h: nat)
    requires h <= |free| && forall d :: 0 <= d < h ==> !free[d]
    ensures forall i :: 0 <= i < |Grab(free, k).0| ==> h <= Grab(free, k).0[i]
    ensures forall d :: 0 <= d < h ==> !Grab(free, k).1[d]
  {
    if k > 0 {
      GrabAbove(free, k - 1, h);
      var (ids, rest) := Grab(free, k - 1);
      var d := First(rest);
      assert d < |rest| ==> rest[d] && h <= d;
    }
  }

  lemma {:induction false} AscendingAbove(ids: seq<nat>, lo: nat, hi: nat)
    requires Ascending(ids) && lo <= hi && forall i :: 0 <= i < |ids| ==> lo <= ids[i] < hi
    ensures |ids| <= hi - lo
  {
    if |ids| > 0 {
      var init, last := ids[..|ids| - 1], |ids| - 1;
      forall i, j | 0 <= i < j < |init| ensures Below(init, i, j) {
        assert Below(ids, i, j);
      }
      forall i | 0 <= i < last ensures lo <= init[i] < ids[last] {
        assert Below(ids, i, last);
      }
      AscendingAbove(init, lo, ids[last]);
    }
  }

  /** Returning a block makes exactly that block available. */
  lemma GiveBackBlock(free: seq<bool>, n: nat, heads: set<nat>, h: nat)
    requires n > 0 && FreeOk(free, n, heads) && IsBlock(h, n, |free|)
    ensures FreeOk(GiveBack(free, Range(h, n)), n, heads - {h})
  {
    var free' := GiveBack(free, Range(h, n));
    forall d | 0 <= d < |free'| ensures free'[d] == (Start(d, n) !in heads - {h}) {
      GiveBackExact(free, Range(h, n), d);
      if h <= d < h + n {
        StartIs(h, d, n);
        assert Range(h, n)[d - h] == d;
      } else if d in Range(h, n) {
        assert false;
      }
    }
  }
}
