/**
  Which frames an address space owns: its tables and its data frames, never shared between
  two pages, between a table and a page, or between two spaces.
 */
module Ownership {
  import opened VirtualMemory
  import opened Sequences
  import opened PageTable

  /** Everything the space uses was handed out by its proxy, and to one purpose only. */
  ghost predicate Owns(s: Space, owned: seq<nat>) {
    && PageTable.Valid(s) && Distinct(owned)
    && (forall g :: g in s.path ==> g in owned)
    && (forall idx {:trigger Lookup(s, idx)} :: ValidIndices(idx) && Lookup(s, idx).Leaf? ==>
          Lookup(s, idx).entry.frame in owned && Lookup(s, idx).entry.frame !in s.path)
    && (forall idx, j {:trigger Lookup(s, idx), Lookup(s, j)} ::
          ValidIndices(idx) && ValidIndices(j) && idx != j && Lookup(s, idx).Leaf? && Lookup(s, j).Leaf? ==>
          Lookup(s, idx).entry.frame != Lookup(s, j).entry.frame)
  }

  /** Mapping a page to a frame nobody has keeps all of it, whatever the answer. */
  lemma MapToOwns(s: Space, owned: seq<nat>, idx: seq<nat>, frame: nat, flags: Flags, supply: Supply)
    requires Owns(s, owned) && ValidIndices(idx) && Present in flags
    requires Distinct(owned + [frame] + supply) && Fresh(s, supply)
    ensures
      var (s', r, left) := MapTo(s, idx, frame, flags, supply);
      |left| <= |supply| && Owns(s', owned + [frame] + Taken(supply, left))
  {
    MapToRefines(s, idx, frame, flags, supply);
    var (s', r, left) := MapTo(s, idx, frame, flags, supply);
    var taken := Taken(supply, left);
    var owned' := owned + [frame] + taken;
    assert owned + [frame] + supply == owned' + left;
    DistinctParts(owned', left);
    DistinctParts(owned + [frame], taken);
    DistinctParts(owned, [frame]);
    forall g | g in s'.path ensures g in owned' {
      assert g in s.path || g in taken;
    }
    forall j | ValidIndices(j) && Lookup(s', j).Leaf?
      ensures Lookup(s', j).entry.frame in owned' && Lookup(s', j).entry.frame !in s'.path
      ensures j != idx || r != Mapped ==> Lookup(s, j) == Lookup(s', j) && Lookup(s', j).entry.frame in owned
      ensures j == idx && r == Mapped ==> Lookup(s', j).entry.frame == frame
    {
      if j != idx || r != Mapped {
        assert Lookup(s, j) == Lookup(s', j);
      } else {
        assert frame !in s.path && frame in [frame];
      }
    }
  }
}
