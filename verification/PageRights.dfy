/**
  Access rights and protection changes.  The processor grants an access only if every level
  grants it (section 4.6 of the Intel SDM, Volume 3A); `map_to` and `set_flags` keep every
  upper entry permissive enough, so that in effect the leaf alone decides.
 */
module PageRights {
  import opened VirtualMemory
  import opened PageTable

  const RIGHTS: Flags := {Present, Writable, User, NoExecute}

  /** Present, writable and user must hold at every level; one no-execute bit is enough. */
  function Combine(upper: Flags, below: Flags): (r: Flags) {
    (upper * below * {Present, Writable, User}) + ((upper + below) * {NoExecute})
  }

  function Effective(tables: Tables, f: nat, idx: seq<nat>): (r: Flags)
    requires forall k :: 0 <= k < |idx| ==> idx[k] < ENTRIES
    decreases |idx|
  {
    if idx == [] || f !in tables then {}
    else
      var e := tables[f][idx[0]];
      if |idx| == 1 then e.flags * RIGHTS
      else Combine(e.flags, Effective(tables, e.frame, idx[1..]))
  }

  // --- The invariant ------------------------------------------------------------------------

  /** No upper entry that leads to a table forbids execution. */
  ghost predicate UpperClean(s: Space) {
    forall f, i {:trigger CleanAt(s, f, i)} ::
      f in s.path && f in s.tables && |s.path[f]| < 3 && 0 <= i < ENTRIES ==> CleanAt(s, f, i)
  }

  predicate CleanAt(s: Space, f: nat, i: nat)
    requires f in s.tables && i < ENTRIES
  {
    NoExecute in s.tables[f][i].flags ==> Huge in s.tables[f][i].flags
  }

  /** Every upper entry grants what the leaves below it ask for. */
  ghost predicate Grants(s: Space) {
    forall idx {:trigger Lookup(s, idx)} ::
      ValidIndices(idx) && Lookup(s, idx).Leaf? ==> Lookup(s, idx).entry.flags * PARENT_FLAGS <= Above(s.tables, s.root, idx)
  }

  ghost predicate RightsInv(s: Space) {
    Valid(s) && UpperClean(s) && Grants(s)
  }

  /** The effective rights of a mapped page are its leaf flags. */
  lemma EffectiveIsLeaf(s: Space, idx: seq<nat>)
    requires RightsInv(s) && ValidIndices(idx) && Lookup(s, idx).Leaf?
    ensures Effective(s.tables, s.root, idx) == Lookup(s, idx).entry.flags * RIGHTS
  {
    EffectiveFrom(s, s.root, idx);
  }

  lemma {:induction false} EffectiveFrom(s: Space, f: nat, idx: seq<nat>)
    requires Valid(s) && UpperClean(s) && f in s.path && idx != [] && |s.path[f]| + |idx| == 4
    requires forall k :: 0 <= k < |idx| ==> idx[k] < ENTRIES
    requires Translate(s.tables, f, idx).Leaf?
    requires Translate(s.tables, f, idx).entry.flags * PARENT_FLAGS <= Above(s.tables, f, idx)
    ensures Effective(s.tables, f, idx) == Translate(s.tables, f, idx).entry.flags * RIGHTS
    decreases |idx|
  {
    assert TableOk(s, f);
    if |idx| > 1 {
      assert EntryOk(s, f, idx[0]) && CleanAt(s, f, idx[0]);
      EffectiveFrom(s, s.tables[f][idx[0]].frame, idx[1..]);
      CombineAbsorbs(s.tables[f][idx[0]].flags, Translate(s.tables, f, idx).entry.flags);
    }
  }

  lemma CombineAbsorbs(upper: Flags, leaf: Flags)
    requires leaf * PARENT_FLAGS <= upper && NoExecute !in upper
    ensures Combine(upper, leaf * RIGHTS) == leaf * RIGHTS
  {
    forall x | x in leaf * RIGHTS ensures x in Combine(upper, leaf * RIGHTS) {
      assert x in PARENT_FLAGS ==> x in leaf * PARENT_FLAGS;
    }
  }

  // --- Growing the tree keeps the invariant ----------------------------------------------------

  lemma {:induction false} AboveGrows(s: Space, tables': Tables, f: nat, idx: seq<nat>)
    requires Valid(s) && f in s.path && |s.path[f]| + |idx| == 4 && idx != []
    requires forall k :: 0 <= k < |idx| ==> idx[k] < ENTRIES
    requires forall g {:trigger TableGrows(s, tables', g)} :: g in s.path ==> TableGrows(s, tables', g)
    requires Translate(s.tables, f, idx).Leaf?
    ensures Above(s.tables, f, idx) <= Above(tables', f, idx)
    decreases |idx|
  {
    assert TableOk(s, f) && TableGrows(s, tables', f);
    if |idx| > 1 {
      assert EntryOk(s, f, idx[0]);
      assert Grows(s.tables[f][idx[0]], tables'[f][idx[0]], |s.path[f]| < 3, tables');
      AboveGrows(s, tables', s.tables[f][idx[0]].frame, idx[1..]);
    }
  }

  lemma NextTableRights(s: Space, f: nat, i: nat, flags: Flags, supply: Supply)
    requires RightsInv(s) && Ready(s, f, i, flags, supply) && f in s.tables
    ensures RightsInv(NextTable(s, f, i, flags, supply).0)
  {
    NextTableKeeps(s, f, i, flags, supply);
    NextTableLookups(s, f, i, flags, supply);
    NextTableClean(s, f, i, flags, supply);
    GrownRights(s, NextTable(s, f, i, flags, supply).0);
  }

  /** A tree that only grew, with the same translations, still grants every leaf its rights. */
  lemma GrownRights(s: Space, s': Space)
    requires RightsInv(s) && Valid(s') && UpperClean(s') && s'.root == s.root
    requires forall g {:trigger TableGrows(s, s'.tables, g)} :: g in s.path ==> TableGrows(s, s'.tables, g)
    requires forall idx {:trigger Lookup(s', idx)} :: ValidIndices(idx) ==> Lookup(s', idx) == Lookup(s, idx)
    ensures RightsInv(s')
  {
    forall idx | ValidIndices(idx) && Lookup(s', idx).Leaf?
      ensures Lookup(s', idx).entry.flags * PARENT_FLAGS <= Above(s'.tables, s'.root, idx)
    {
      assert Lookup(s', idx) == Lookup(s, idx);
      AboveGrows(s, s'.tables, s.root, idx);
    }
  }

  lemma NextTableClean(s: Space, f: nat, i: nat, flags: Flags, supply: Supply)
    requires Valid(s) && UpperClean(s) && Ready(s, f, i, flags, supply) && f in s.tables
    ensures UpperClean(NextTable(s, f, i, flags, supply).0)
  {
    var s' := NextTable(s, f, i, flags, supply).0;
    assert CleanAt(s, f, i);
    forall g, j | g in s'.path && g in s'.tables && |s'.path[g]| < 3 && 0 <= j < ENTRIES ensures CleanAt(s', g, j) {
      if g in s.path {
        assert TableOk(s, g);
        assert CleanAt(s, g, j);
      }
    }
  }

  lemma {:induction false} DescendRights(s: Space, f: nat, idx: seq<nat>, flags: Flags, supply: Supply)
    requires RightsInv(s) && CanDescend(s, f, idx, flags, supply)
    ensures RightsInv(Descend(s, f, idx, flags, supply).0)
    decreases |idx|
  {
    if |idx| > 1 {
      StepDescends(s, f, idx, flags, supply);
      NextTableRights(s, f, idx[0], flags, supply);
      var (s1, r, left) := NextTable(s, f, idx[0], flags, supply);
      if r.Table? {
        DescendRights(s1, r.frame, idx[1..], flags, left);
      }
    }
  }

  lemma {:induction false} LeafWriteAbove(s: Space, t: nat, i: nat, e: Entry, f: nat, idx: seq<nat>)
    requires Valid(s) && t in s.path && t in s.tables && |s.path[t]| == 3 && i < ENTRIES
    requires f in s.path && idx != [] && |s.path[f]| + |idx| == 4
    requires forall k :: 0 <= k < |idx| ==> idx[k] < ENTRIES
    requires WalkTo(s.tables, f, idx).Table?
    ensures Above(WithEntry(s, t, i, e).tables, f, idx) == Above(s.tables, f, idx)
    decreases |idx|
  {
    if |idx| > 1 {
      assert TableOk(s, f) && EntryOk(s, f, idx[0]);
      LeafWriteAbove(s, t, i, e, s.tables[f][idx[0]].frame, idx[1..]);
    }
  }

  lemma LeafWriteRights(s: Space, t: nat, e: Entry, idx: seq<nat>)
    requires RightsInv(s) && ValidIndices(idx) && !e.IsUnused()
    requires t in s.path && t in s.tables && s.path[t] == idx[..3] && WalkTo(s.tables, s.root, idx) == Table(t)
    requires e.flags * PARENT_FLAGS <= Above(s.tables, s.root, idx)
    ensures RightsInv(WithEntry(s, t, idx[3], e))
  {
    var s' := WithEntry(s, t, idx[3], e);
    LeafWrite(s, t, e, idx);
    forall g, j | g in s'.path && g in s'.tables && |s'.path[g]| < 3 && 0 <= j < ENTRIES ensures CleanAt(s', g, j) {
      assert CleanAt(s, g, j);
    }
    forall j | ValidIndices(j) && Lookup(s', j).Leaf?
      ensures Lookup(s', j).entry.flags * PARENT_FLAGS <= Above(s'.tables, s'.root, j)
    {
      TranslateByWalk(s'.tables, s.root, j);
      LeafWriteWalks(s, t, idx[3], e, s.root, j);
      LeafWriteAbove(s, t, idx[3], e, s.root, j);
      assert j != idx ==> Lookup(s', j) == Lookup(s, j);
    }
  }

  /** `map_to` keeps the rights invariant, whatever its answer. */
  lemma MapToRights(s: Space, idx: seq<nat>, frame: nat, flags: Flags, supply: Supply)
    requires RightsInv(s) && ValidIndices(idx) && Fresh(s, supply) && Present in flags
    ensures RightsInv(MapTo(s, idx, frame, flags, supply).0)
  {
    assert TableOk(s, s.root);
    var (s1, d, left) := Descend(s, s.root, idx, flags * PARENT_FLAGS, supply);
    DescendKeeps(s, s.root, idx, flags * PARENT_FLAGS, supply);
    DescendRights(s, s.root, idx, flags * PARENT_FLAGS, supply);
    if d.Table? {
      assert [] + idx[..3] == idx[..3];
      assert TableOk(s1, d.frame);
      if s1.tables[d.frame][idx[3]].IsUnused() {
        LeafWriteRights(s1, d.frame, Entry(frame, flags), idx);
      }
    }
  }
}
