/**
  The four-level page table as a value: a radix tree of 512-entry tables addressed by frame.
  `path` records, for every frame used as a table, the indices that lead to it from the root;
  that it is a function of the frame is what makes the structure a tree.
 */
module PageTable {
  import opened VirtualMemory
  import opened Sequences

  datatype Flag = Present | Writable | User | WriteThrough | NoCache | Accessed | Dirty | Huge | Global | NoExecute
  type Flags = set<Flag>

  /** The bits a parent entry takes over from the leaves below it. */
  const PARENT_FLAGS: Flags := {Present, Writable, User}

  datatype Entry = Entry(frame: nat, flags: Flags) {
    /** The raw value is zero. */
    predicate IsUnused() { frame == 0 && flags == {} }
  }

  const UNUSED := Entry(0, {})

  type Table = t: seq<Entry> | |t| == ENTRIES witness seq(ENTRIES, _ => UNUSED)

  /** What `clear` leaves behind. */
  function EmptyTable(): (t: Table)
    ensures forall i :: 0 <= i < ENTRIES ==> t[i] == UNUSED
  {
    seq(ENTRIES, _ => UNUSED)
  }

  type Tables = map<nat, Table>

  datatype Space = Space(root: nat, tables: Tables, path: map<nat, seq<nat>>)

  /** The answer of the translate functions; a leaf carries the whole entry. */
  datatype Mapping = NotMapped | HugePage | Leaf(entry: Entry)

  /** Follow the indices from table `f`; the last one selects the leaf. */
  function Translate(tables: Tables, f: nat, idx: seq<nat>): (m: Mapping)
    requires forall k :: 0 <= k < |idx| ==> idx[k] < ENTRIES
    decreases |idx|
  {
    if idx == [] || f !in tables then NotMapped
    else
      var e := tables[f][idx[0]];
      if |idx| == 1 then (if e.IsUnused() then NotMapped else Leaf(e))
      else if Present !in e.flags then NotMapped
      else if Huge in e.flags then HugePage
      else Translate(tables, e.frame, idx[1..])
  }

  function Lookup(s: Space, idx: seq<nat>): (m: Mapping)
    requires ValidIndices(idx)
  {
    Translate(s.tables, s.root, idx)
  }

  // --- The tree invariant -------------------------------------------------------------------

  ghost predicate Valid(s: Space) {
    && s.root in s.path && s.path[s.root] == []
    && forall f {:trigger TableOk(s, f)} :: f in s.path ==> TableOk(s, f)
  }

  ghost predicate TableOk(s: Space, f: nat)
    requires f in s.path
  {
    && f in s.tables && |s.path[f]| <= 3
    && (|s.path[f]| < 3 ==>
          forall i {:trigger EntryOk(s, f, i)} :: 0 <= i < ENTRIES ==> EntryOk(s, f, i))
  }

  /** An upper entry is unused, a huge page, or the only way to the table below it. */
  ghost predicate EntryOk(s: Space, f: nat, i: nat)
    requires f in s.path && f in s.tables && i < ENTRIES
  {
    var e := s.tables[f][i];
    e.IsUnused() || (Present in e.flags && (Huge in e.flags || (e.frame in s.path && s.path[e.frame] == s.path[f] + [i])))
  }

  // --- One step down, creating or widening as needed -------------------------------------------

  datatype Next = Table(frame: nat) | NoFrame | HitHuge

  /** The frames the allocator hands out, in order; when they run out it fails. */
  type Supply = seq<nat>

  function WithEntry(s: Space, f: nat, i: nat, e: Entry): (r: Space)
    requires f in s.tables && i < ENTRIES
  {
    Space(s.root, s.tables[f := s.tables[f][i := e]], s.path)
  }

  function WithTable(s: Space, f: nat, i: nat, g: nat, flags: Flags): (r: Space)
    requires f in s.tables && f in s.path && i < ENTRIES
  {
    Space(s.root,
          s.tables[f := s.tables[f][i := Entry(g, flags)]][g := EmptyTable()],
          s.path[g := s.path[f] + [i]])
  }

  function Widened(e: Entry, flags: Flags): (r: Entry) {
    if flags != {} && !(flags <= e.flags) then Entry(e.frame, e.flags + flags) else e
  }

  function NextTable(s: Space, f: nat, i: nat, flags: Flags, supply: Supply): (r: (Space, Next, Supply))
    requires f in s.tables && f in s.path && i < ENTRIES
  {
    var e := s.tables[f][i];
    if e.IsUnused() then
      if supply == [] then (s, NoFrame, supply)
      else (WithTable(s, f, i, supply[0], flags), Table(supply[0]), supply[1..])
    else
      var w := Widened(e, flags);
      (WithEntry(s, f, i, w), if Huge in w.flags then HitHuge else Table(w.frame), supply)
  }

  // --- Growing the tree keeps every translation -------------------------------------------------

  /** What may happen to an entry while the tables above a page are prepared. */
  ghost predicate Grows(e: Entry, e': Entry, upper: bool, tables': Tables) {
    || e' == e
    || (upper && !e.IsUnused() && e'.frame == e.frame && e.flags <= e'.flags
        && (Huge in e'.flags ==> Huge in e.flags) && Present in e.flags)
    || (upper && e.IsUnused() && Present in e'.flags && Huge !in e'.flags && e'.frame in tables' && tables'[e'.frame] == EmptyTable())
  }

  ghost predicate TableGrows(s: Space, tables': Tables, f: nat) {
    f in s.path && f in s.tables && f in tables' && forall i {:trigger tables'[f][i]} :: 0 <= i < ENTRIES ==>
      Grows(s.tables[f][i], tables'[f][i], |s.path[f]| < 3, tables')
  }

  lemma EmptyNotMapped(tables: Tables, f: nat, idx: seq<nat>)
    requires forall k :: 0 <= k < |idx| ==> idx[k] < ENTRIES
    requires f in tables && tables[f] == EmptyTable()
    ensures Translate(tables, f, idx) == NotMapped
  {
  }

  lemma {:induction false} GrowthKeepsFrom(s: Space, tables': Tables, f: nat, idx: seq<nat>)
    requires Valid(s) && f in s.path && |s.path[f]| + |idx| == 4 && idx != []
    requires forall k :: 0 <= k < |idx| ==> idx[k] < ENTRIES
    requires forall g {:trigger TableGrows(s, tables', g)} :: g in s.path ==> TableGrows(s, tables', g)
    ensures Translate(tables', f, idx) == Translate(s.tables, f, idx)
    decreases |idx|
  {
    assert TableOk(s, f) && TableGrows(s, tables', f);
    var e, e' := s.tables[f][idx[0]], tables'[f][idx[0]];
    if |idx| > 1 {
      assert EntryOk(s, f, idx[0]);
      if e.IsUnused() {
        if e' != e {
          EmptyNotMapped(tables', e'.frame, idx[1..]);
        }
      } else if Huge !in e.flags {
        GrowthKeepsFrom(s, tables', e.frame, idx[1..]);
      }
    }
  }

  /** A table and supply as `next_table` is called with them. */
  ghost predicate Ready(s: Space, f: nat, i: nat, flags: Flags, supply: Supply) {
    && Valid(s) && f in s.path && |s.path[f]| < 3 && i < ENTRIES
    && Present in flags && flags <= PARENT_FLAGS
    && Fresh(s, supply)
  }

  /** The supply is free of repetitions and of frames that are tables already. */
  ghost predicate Fresh(s: Space, supply: Supply) {
    && (forall k :: 0 <= k < |supply| ==> supply[k] !in s.path)
    && Distinct(supply)
  }

  /** The larger tree has the same translations and has taken exactly the frames `taken`. */
  ghost predicate Extends(s: Space, s': Space, taken: seq<nat>) {
    && Valid(s') && s'.root == s.root
    && (forall idx {:trigger Lookup(s', idx)} :: ValidIndices(idx) ==> Lookup(s', idx) == Lookup(s, idx))
    && (forall g :: g in s.path ==> g in s'.path && s'.path[g] == s.path[g])
    && s'.path.Keys == s.path.Keys + Elements(taken)
    && (forall g :: g in s.tables && g !in s'.path ==> g in s'.tables && s'.tables[g] == s.tables[g])
  }

  function Elements(t: seq<nat>): (r: set<nat>) {
    set x | x in t
  }

  lemma ExtendsTrans(s: Space, s1: Space, s2: Space, t1: seq<nat>, t2: seq<nat>)
    requires Extends(s, s1, t1) && Extends(s1, s2, t2)
    ensures Extends(s, s2, t1 + t2)
  {
    assert Elements(t1 + t2) == Elements(t1) + Elements(t2);
    forall idx | ValidIndices(idx) ensures Lookup(s2, idx) == Lookup(s, idx) {
      assert Lookup(s1, idx) == Lookup(s, idx);
    }
  }

  /** The part of the supply that was consumed. */
  function Taken(supply: Supply, left: Supply): (t: seq<nat>)
    requires |left| <= |supply|
  {
    supply[..|supply| - |left|]
  }

  lemma TakenJoin(supply: Supply, left1: Supply, left: Supply)
    requires |left1| <= |supply| && supply == Taken(supply, left1) + left1
    requires |left| <= |left1| && left1 == Taken(left1, left) + left
    ensures Taken(supply, left1) + Taken(left1, left) == Taken(supply, left)
    ensures supply == Taken(supply, left) + left
  {
    assert supply == Taken(supply, left1) + (Taken(left1, left) + left);
  }

  lemma PathJoin(p: seq<nat>, idx: seq<nat>)
    requires |idx| >= 2
    ensures p + [idx[0]] + idx[1..][..|idx[1..]| - 1] == p + idx[..|idx| - 1]
  {
  }

  /** What one step down from entry `i` of `f` achieves. */
  ghost predicate StepOk(s: Space, f: nat, i: nat, flags: Flags, supply: Supply, s': Space, r: Next, left: Supply)
    requires f in s.path && f in s.tables && i < ENTRIES
  {
    && |left| <= |supply| && supply == Taken(supply, left) + left
    && Extends(s, s', Taken(supply, left))
    && (r.Table? ==> r.frame in s'.path && s'.path[r.frame] == s.path[f] + [i]
                     && f in s'.tables && Leads(s'.tables[f][i], r.frame, flags)
                     && (s.tables[f][i].IsUnused() ==> r.frame in s'.tables && s'.tables[r.frame] == EmptyTable())
                     && (!s.tables[f][i].IsUnused() ==> s.tables[f][i].frame == r.frame))
    && (forall g {:trigger SameTable(s, s', g)} :: g in s.path && g != f ==> SameTable(s, s', g))
    && (r == HitHuge <==> Huge in s.tables[f][i].flags)
    && (r == NoFrame <==> s.tables[f][i].IsUnused() && supply == [])
  }

  /** One step keeps the tree and every translation, and leads to the right table. */
  lemma NextTableKeeps(s: Space, f: nat, i: nat, flags: Flags, supply: Supply)
    requires Ready(s, f, i, flags, supply) && f in s.tables
    ensures var (s', r, left) := NextTable(s, f, i, flags, supply); StepOk(s, f, i, flags, supply, s', r, left)
  {
    assert TableOk(s, f) && EntryOk(s, f, i);
    if s.tables[f][i].IsUnused() {
      if supply == [] {
        NoFrameStep(s, f, i, flags);
      } else {
        NewTableStep(s, f, i, flags, supply);
      }
    } else {
      WidenedStep(s, f, i, flags, supply);
    }
  }

  lemma NoFrameStep(s: Space, f: nat, i: nat, flags: Flags)
    requires Ready(s, f, i, flags, []) && f in s.tables && s.tables[f][i].IsUnused()
    ensures StepOk(s, f, i, flags, [], s, NoFrame, [])
  {
    forall g | g in s.path ensures SameTable(s, s, g) {
      assert TableOk(s, g);
    }
  }

  lemma NewTableStep(s: Space, f: nat, i: nat, flags: Flags, supply: Supply)
    requires Ready(s, f, i, flags, supply) && f in s.tables && s.tables[f][i].IsUnused() && supply != []
    ensures StepOk(s, f, i, flags, supply, WithTable(s, f, i, supply[0], flags), Table(supply[0]), supply[1..])
  {
    var s' := WithTable(s, f, i, supply[0], flags);
    WithTableValid(s, f, i, supply[0], flags);
    NextTableLookups(s, f, i, flags, supply);
    assert Taken(supply, supply[1..]) == [supply[0]];
    assert Elements([supply[0]]) == {supply[0]};
    forall g | g in s.path && g != f ensures SameTable(s, s', g) {
      assert TableOk(s, g);
    }
  }

  lemma WidenedStep(s: Space, f: nat, i: nat, flags: Flags, supply: Supply)
    requires Ready(s, f, i, flags, supply) && f in s.tables && !s.tables[f][i].IsUnused()
    ensures var (s', r, left) := NextTable(s, f, i, flags, supply); StepOk(s, f, i, flags, supply, s', r, left)
  {
    var s' := WithEntry(s, f, i, Widened(s.tables[f][i], flags));
    assert TableOk(s, f) && EntryOk(s, f, i);
    WidenedValid(s, f, i, flags);
    NextTableLookups(s, f, i, flags, supply);
    assert Taken(supply, supply) == [];
    forall g | g in s.path && g != f ensures SameTable(s, s', g) {
      assert TableOk(s, g);
    }
  }

  lemma NextTableLookups(s: Space, f: nat, i: nat, flags: Flags, supply: Supply)
    requires Ready(s, f, i, flags, supply) && f in s.tables
    ensures
      var s' := NextTable(s, f, i, flags, supply).0;
      && (forall g {:trigger TableGrows(s, s'.tables, g)} :: g in s.path ==> TableGrows(s, s'.tables, g))
      && (forall idx {:trigger Lookup(s', idx)} :: ValidIndices(idx) ==> Lookup(s', idx) == Lookup(s, idx))
  {
    assert TableOk(s, f) && EntryOk(s, f, i);
    var s' := NextTable(s, f, i, flags, supply).0;
    forall g | g in s.path ensures TableGrows(s, s'.tables, g) {
      assert TableOk(s, g);
    }
    forall idx | ValidIndices(idx) ensures Lookup(s', idx) == Lookup(s, idx) {
      GrowthKeepsFrom(s, s'.tables, s.root, idx);
    }
  }

  predicate SameTable(s: Space, s': Space, g: nat) {
    g in s.tables && g in s'.tables && s'.tables[g] == s.tables[g]
  }

  /** The entry points at the table and grants at least the given rights. */
  predicate Leads(e: Entry, f: nat, flags: Flags) {
    e.frame == f && Present in e.flags && Huge !in e.flags && flags <= e.flags
  }

  lemma WithTableValid(s: Space, f: nat, i: nat, g: nat, flags: Flags)
    requires Valid(s) && f in s.path && f in s.tables && |s.path[f]| < 3 && i < ENTRIES
    requires s.tables[f][i].IsUnused() && g !in s.path && Present in flags && Huge !in flags
    ensures Valid(WithTable(s, f, i, g, flags))
  {
    var s' := WithTable(s, f, i, g, flags);
    forall h | h in s'.path ensures TableOk(s', h) {
      if h == g {
        forall j | 0 <= j < ENTRIES ensures EntryOk(s', g, j) {
          assert s'.tables[g][j] == UNUSED;
        }
      } else {
        assert TableOk(s, h);
        if |s.path[h]| < 3 {
          forall j | 0 <= j < ENTRIES ensures EntryOk(s', h, j) {
            assert EntryOk(s, h, j);
          }
        }
      }
    }
  }

  lemma WidenedValid(s: Space, f: nat, i: nat, flags: Flags)
    requires Valid(s) && f in s.path && f in s.tables && |s.path[f]| < 3 && i < ENTRIES
    requires !s.tables[f][i].IsUnused() && flags <= PARENT_FLAGS
    ensures Valid(WithEntry(s, f, i, Widened(s.tables[f][i], flags)))
  {
    var s' := WithEntry(s, f, i, Widened(s.tables[f][i], flags));
    assert TableOk(s, f) && EntryOk(s, f, i);
    forall h | h in s'.path ensures TableOk(s', h) {
      assert TableOk(s, h);
      if |s.path[h]| < 3 {
        forall j | 0 <= j < ENTRIES ensures EntryOk(s', h, j) {
          assert EntryOk(s, h, j);
        }
      }
    }
  }

  /** What is left of a fresh supply is fresh for the grown tree. */
  lemma LeftFresh(s: Space, supply: Supply, s1: Space, left: Supply)
    requires Fresh(s, supply) && |left| <= |supply| && supply == Taken(supply, left) + left
    requires s1.path.Keys == s.path.Keys + Elements(Taken(supply, left))
    ensures Fresh(s1, left)
  {
    var n := |supply| - |left|;
    assert forall k :: 0 <= k < |left| ==> left[k] == supply[n + k];
    forall k | 0 <= k < |left| ensures left[k] !in s1.path {
      forall j | 0 <= j < n ensures supply[j] != left[k] {
        assert Differ(supply, j, n + k);
      }
    }
    forall j, k | 0 <= j < k < |left| ensures Differ(left, j, k) {
      assert Differ(supply, n + j, n + k);
    }
  }

  // --- All steps down to the table of the leaf --------------------------------------------------

  /** A table from which the remaining indices lead to a leaf. */
  ghost predicate CanDescend(s: Space, f: nat, idx: seq<nat>, flags: Flags, supply: Supply) {
    && Valid(s) && f in s.path && f in s.tables && idx != [] && |s.path[f]| + |idx| == 4
    && (forall k :: 0 <= k < |idx| ==> idx[k] < ENTRIES)
    && Present in flags && flags <= PARENT_FLAGS && Fresh(s, supply)
  }

  /** `next_table` once per upper level, stopping at the first failure. */
  function Descend(s: Space, f: nat, idx: seq<nat>, flags: Flags, supply: Supply): (r: (Space, Next, Supply))
    requires CanDescend(s, f, idx, flags, supply)
    decreases |idx|
  {
    if |idx| == 1 then (s, Table(f), supply)
    else
      var (s1, r, left) := NextTable(s, f, idx[0], flags, supply);
      StepDescends(s, f, idx, flags, supply);
      if r.Table? then Descend(s1, r.frame, idx[1..], flags, left) else (s1, r, left)
  }

  lemma StepDescends(s: Space, f: nat, idx: seq<nat>, flags: Flags, supply: Supply)
    requires CanDescend(s, f, idx, flags, supply) && |idx| > 1
    ensures
      var (s1, r, left) := NextTable(s, f, idx[0], flags, supply);
      && StepOk(s, f, idx[0], flags, supply, s1, r, left)
      && (r.Table? ==> CanDescend(s1, r.frame, idx[1..], flags, left))
  {
    NextTableKeeps(s, f, idx[0], flags, supply);
    var (s1, r, left) := NextTable(s, f, idx[0], flags, supply);
    LeftFresh(s, supply, s1, left);
    if r.Table? {
      assert TableOk(s1, r.frame);
    }
  }

  /** The table that holds the leaf entry for the indices, if the walk gets there. */
  function WalkTo(tables: Tables, f: nat, idx: seq<nat>): (r: Next)
    requires forall k :: 0 <= k < |idx| ==> idx[k] < ENTRIES
    decreases |idx|
  {
    if |idx| <= 1 then Table(f)
    else if f !in tables then NoFrame
    else
      var e := tables[f][idx[0]];
      if Present !in e.flags then NoFrame
      else if Huge in e.flags then HitHuge
      else WalkTo(tables, e.frame, idx[1..])
  }

  /** The rights every upper entry on the way grants. */
  function Above(tables: Tables, f: nat, idx: seq<nat>): (flags: Flags)
    requires forall k :: 0 <= k < |idx| ==> idx[k] < ENTRIES
    decreases |idx|
  {
    if |idx| <= 1 || f !in tables then PARENT_FLAGS
    else tables[f][idx[0]].flags * Above(tables, tables[f][idx[0]].frame, idx[1..])
  }

  /** What the whole descent achieves. */
  ghost predicate DescentOk(s: Space, f: nat, idx: seq<nat>, flags: Flags, supply: Supply, s': Space, r: Next, left: Supply)
    requires f in s.path && idx != []
    requires forall k :: 0 <= k < |idx| ==> idx[k] < ENTRIES
  {
    && |left| <= |supply| && supply == Taken(supply, left) + left
    && Extends(s, s', Taken(supply, left))
    && (r.Table? ==> r.frame in s'.path && s'.path[r.frame] == s.path[f] + idx[..|idx| - 1]
                     && WalkTo(s'.tables, f, idx) == r && flags <= Above(s'.tables, f, idx))
    && (r == HitHuge <==> WalkTo(s.tables, f, idx) == HitHuge)
    && (r == NoFrame ==> WalkTo(s.tables, f, idx) == NoFrame && left == [])
    && (forall g {:trigger SameTable(s, s', g)} :: g in s.path && |s.path[g]| < |s.path[f]| ==> SameTable(s, s', g))
  }

  lemma {:induction false} DescendKeeps(s: Space, f: nat, idx: seq<nat>, flags: Flags, supply: Supply)
    requires CanDescend(s, f, idx, flags, supply)
    ensures var (s', r, left) := Descend(s, f, idx, flags, supply); DescentOk(s, f, idx, flags, supply, s', r, left)
    decreases |idx|
  {
    if |idx| == 1 {
      DescentStays(s, f, idx, flags, supply);
    } else {
      StepDescends(s, f, idx, flags, supply);
      var (s1, r1, left1) := NextTable(s, f, idx[0], flags, supply);
      if r1.Table? {
        DescendKeeps(s1, r1.frame, idx[1..], flags, left1);
        var (s', r, left) := Descend(s1, r1.frame, idx[1..], flags, left1);
        DescentJoins(s, f, idx, flags, supply, s1, r1.frame, left1, s', r, left);
      } else {
        DescentStops(s, f, idx, flags, supply, s1, r1, left1);
      }
    }
  }

  lemma DescentStays(s: Space, f: nat, idx: seq<nat>, flags: Flags, supply: Supply)
    requires CanDescend(s, f, idx, flags, supply) && |idx| == 1
    ensures DescentOk(s, f, idx, flags, supply, s, Table(f), supply)
  {
    assert s.path[f] + idx[..0] == s.path[f] && Taken(supply, supply) == [];
    forall g | g in s.path ensures SameTable(s, s, g) {
      assert TableOk(s, g);
    }
  }

  lemma DescentStops(s: Space, f: nat, idx: seq<nat>, flags: Flags, supply: Supply, s1: Space, r1: Next, left1: Supply)
    requires Valid(s) && f in s.path && f in s.tables && |idx| >= 2 && |s.path[f]| + |idx| == 4
    requires forall k :: 0 <= k < |idx| ==> idx[k] < ENTRIES
    requires StepOk(s, f, idx[0], flags, supply, s1, r1, left1) && !r1.Table?
    ensures DescentOk(s, f, idx, flags, supply, s1, r1, left1)
  {
    assert TableOk(s, f) && EntryOk(s, f, idx[0]);
  }

  lemma DescentJoins(s: Space, f: nat, idx: seq<nat>, flags: Flags, supply: Supply,
                     s1: Space, g1: nat, left1: Supply, s': Space, r: Next, left: Supply)
    requires Valid(s) && f in s.path && f in s.tables && |idx| >= 2 && |s.path[f]| + |idx| == 4
    requires forall k :: 0 <= k < |idx| ==> idx[k] < ENTRIES
    requires StepOk(s, f, idx[0], flags, supply, s1, Table(g1), left1) && Present in flags
    requires DescentOk(s1, g1, idx[1..], flags, left1, s', r, left)
    ensures DescentOk(s, f, idx, flags, supply, s', r, left)
  {
    ExtendsTrans(s, s1, s', Taken(supply, left1), Taken(left1, left));
    TakenJoin(supply, left1, left);
    PathJoin(s.path[f], idx);
    assert SameTable(s1, s', f);
    WalkBelow(s, s1, f, idx[0], idx);
    forall g | g in s.path && |s.path[g]| < |s.path[f]| ensures SameTable(s, s', g) {
      assert SameTable(s, s1, g) && SameTable(s1, s', g);
    }
  }

  /** A step at `f` does not change how the walk goes on below the entry it took. */
  lemma WalkBelow(s: Space, s1: Space, f: nat, i: nat, idx: seq<nat>)
    requires Valid(s) && f in s.path && f in s.tables && |idx| >= 2 && |s.path[f]| + |idx| == 4
    requires forall k :: 0 <= k < |idx| ==> idx[k] < ENTRIES
    requires i == idx[0] && f in s1.tables && Present in s1.tables[f][i].flags && Huge !in s1.tables[f][i].flags
    requires if s.tables[f][i].IsUnused() then s1.tables[f][i].frame in s1.tables && s1.tables[s1.tables[f][i].frame] == EmptyTable()
             else s.tables[f][i].frame == s1.tables[f][i].frame && Huge !in s.tables[f][i].flags
    requires forall g {:trigger SameTable(s, s1, g)} :: g in s.path && g != f ==> SameTable(s, s1, g)
    ensures
      var below := WalkTo(s1.tables, s1.tables[f][i].frame, idx[1..]);
      if s.tables[f][i].IsUnused() then below != HitHuge && WalkTo(s.tables, f, idx) == NoFrame
      else below == WalkTo(s.tables, f, idx)
  {
    assert TableOk(s, f) && EntryOk(s, f, i);
    if !s.tables[f][i].IsUnused() {
      WalkAgrees(s, s1, f, s.tables[f][i].frame, idx[1..]);
    }
  }

  lemma {:induction false} WalkAgrees(s: Space, s1: Space, f: nat, g: nat, idx: seq<nat>)
    requires Valid(s) && f in s.path && g in s.path && idx != [] && |s.path[g]| + |idx| == 4 && |s.path[f]| < |s.path[g]|
    requires forall k :: 0 <= k < |idx| ==> idx[k] < ENTRIES
    requires forall h {:trigger SameTable(s, s1, h)} :: h in s.path && h != f ==> SameTable(s, s1, h)
    ensures WalkTo(s1.tables, g, idx) == WalkTo(s.tables, g, idx)
    decreases |idx|
  {
    if |idx| > 1 {
      assert TableOk(s, g) && EntryOk(s, g, idx[0]) && SameTable(s, s1, g);
      var e := s.tables[g][idx[0]];
      if !e.IsUnused() && Huge !in e.flags {
        WalkAgrees(s, s1, f, e.frame, idx[1..]);
      }
    }
  }

  // --- map_to -------------------------------------------------------------------------------------

  /** `Panicked` is the assertion of `set_frame` against a huge-page flag. */
  datatype MapResult = Mapped | PageAlreadyMapped(to: nat) | FrameAllocationFailed | MappedToHugePage | Panicked

  function MapTo(s: Space, idx: seq<nat>, frame: nat, flags: Flags, supply: Supply): (r: (Space, MapResult, Supply))
    requires Valid(s) && ValidIndices(idx) && Fresh(s, supply) && Present in flags
  {
    assert TableOk(s, s.root);
    var (s1, r, left) := Descend(s, s.root, idx, flags * PARENT_FLAGS, supply);
    DescendKeeps(s, s.root, idx, flags * PARENT_FLAGS, supply);
    match r
    case NoFrame => (s1, FrameAllocationFailed, left)
    case HitHuge => (s1, MappedToHugePage, left)
    case Table(t) =>
      assert TableOk(s1, t);
      if !s1.tables[t][idx[3]].IsUnused() then (s1, PageAlreadyMapped(frame), left)
      else if Huge in flags then (s1, Panicked, left)
      else (WithEntry(s1, t, idx[3], Entry(frame, flags)), Mapped, left)
  }

  /** A translation is the walk to the leaf's table followed by reading the leaf. */
  function LeafOf(tables: Tables, r: Next, i: nat): (m: Mapping)
    requires i < ENTRIES
  {
    match r
    case NoFrame => NotMapped
    case HitHuge => HugePage
    case Table(t) =>
      if t !in tables || tables[t][i].IsUnused() then NotMapped else Leaf(tables[t][i])
  }

  lemma {:induction false} TranslateByWalk(tables: Tables, f: nat, idx: seq<nat>)
    requires idx != [] && forall k :: 0 <= k < |idx| ==> idx[k] < ENTRIES
    ensures Translate(tables, f, idx) == LeafOf(tables, WalkTo(tables, f, idx), idx[|idx| - 1])
    decreases |idx|
  {
    if |idx| > 1 && f in tables {
      var e := tables[f][idx[0]];
      if Present in e.flags && Huge !in e.flags {
        TranslateByWalk(tables, e.frame, idx[1..]);
      }
    }
  }

  /** Writing an entry of a lowest-level table does not change any walk, and a walk ends where it should. */
  lemma {:induction false} LeafWriteWalks(s: Space, t: nat, i: nat, e: Entry, f: nat, idx: seq<nat>)
    requires Valid(s) && t in s.path && t in s.tables && |s.path[t]| == 3 && i < ENTRIES
    requires f in s.path && idx != [] && |s.path[f]| + |idx| == 4
    requires forall k :: 0 <= k < |idx| ==> idx[k] < ENTRIES
    ensures WalkTo(WithEntry(s, t, i, e).tables, f, idx) == WalkTo(s.tables, f, idx)
    ensures WalkTo(s.tables, f, idx).Table? ==>
              var g := WalkTo(s.tables, f, idx).frame;
              g in s.path && s.path[g] == s.path[f] + idx[..|idx| - 1]
    decreases |idx|
  {
    if |idx| == 1 {
      assert s.path[f] + idx[..0] == s.path[f];
    } else {
      assert TableOk(s, f) && EntryOk(s, f, idx[0]);
      var below := s.tables[f][idx[0]];
      if !below.IsUnused() && Huge !in below.flags {
        LeafWriteWalks(s, t, i, e, below.frame, idx[1..]);
        PathJoin(s.path[f], idx);
      }
    }
  }

  lemma LeafWriteValid(s: Space, t: nat, i: nat, e: Entry)
    requires Valid(s) && t in s.path && t in s.tables && |s.path[t]| == 3 && i < ENTRIES
    ensures Valid(WithEntry(s, t, i, e))
  {
    var s' := WithEntry(s, t, i, e);
    forall h | h in s'.path ensures TableOk(s', h) {
      assert TableOk(s, h);
      if |s.path[h]| < 3 {
        forall j | 0 <= j < ENTRIES ensures EntryOk(s', h, j) {
          assert EntryOk(s, h, j);
        }
      }
    }
  }

  /** Writing a leaf changes exactly the translation it belongs to. */
  lemma LeafWrite(s: Space, t: nat, e: Entry, idx: seq<nat>)
    requires Valid(s) && ValidIndices(idx) && !e.IsUnused()
    requires t in s.path && t in s.tables && s.path[t] == idx[..3] && WalkTo(s.tables, s.root, idx) == Table(t)
    ensures Valid(WithEntry(s, t, idx[3], e))
    ensures Lookup(WithEntry(s, t, idx[3], e), idx) == Leaf(e)
    ensures forall j {:trigger Lookup(WithEntry(s, t, idx[3], e), j)} ::
              ValidIndices(j) && j != idx ==> Lookup(WithEntry(s, t, idx[3], e), j) == Lookup(s, j)
  {
    var s' := WithEntry(s, t, idx[3], e);
    LeafWriteValid(s, t, idx[3], e);
    forall j | ValidIndices(j)
      ensures Lookup(s', j) == if j == idx then Leaf(e) else Lookup(s, j)
    {
      TranslateByWalk(s.tables, s.root, j);
      TranslateByWalk(s'.tables, s.root, j);
      LeafWriteWalks(s, t, idx[3], e, s.root, j);
      LeafWriteElsewhere(s, t, e, idx, j);
    }
  }

  lemma LeafWriteElsewhere(s: Space, t: nat, e: Entry, idx: seq<nat>, j: seq<nat>)
    requires Valid(s) && ValidIndices(idx) && ValidIndices(j) && t in s.path && t in s.tables && s.path[t] == idx[..3]
    requires WalkTo(s.tables, s.root, j).Table? ==>
               WalkTo(s.tables, s.root, j).frame in s.path && s.path[WalkTo(s.tables, s.root, j).frame] == [] + j[..3]
    ensures j != idx ==>
              LeafOf(WithEntry(s, t, idx[3], e).tables, WalkTo(s.tables, s.root, j), j[3])
              == LeafOf(s.tables, WalkTo(s.tables, s.root, j), j[3])
  {
    if WalkTo(s.tables, s.root, j) == Table(t) {
      assert j[..3] == idx[..3];
      assert j == j[..3] + [j[3]] && idx == idx[..3] + [idx[3]];
    }
  }

  /** What the caller of `map_to` learns, for every page at once. */
  ghost predicate MapToOk(s: Space, idx: seq<nat>, frame: nat, flags: Flags, supply: Supply, s': Space, r: MapResult, left: Supply)
    requires ValidIndices(idx)
  {
    && Valid(s') && s'.root == s.root
    && |left| <= |supply| && supply == Taken(supply, left) + left
    && s'.path.Keys == s.path.Keys + Elements(Taken(supply, left))
    && (forall g :: g in s.tables && g !in s'.path ==> g in s'.tables && s'.tables[g] == s.tables[g])
    && (forall j {:trigger Lookup(s', j)} :: ValidIndices(j) && (r != Mapped || j != idx) ==> Lookup(s', j) == Lookup(s, j))
    && (match r
        case Mapped => Lookup(s, idx) == NotMapped && Huge !in flags && Lookup(s', idx) == Leaf(Entry(frame, flags))
        case Panicked => Lookup(s, idx) == NotMapped && Huge in flags
        case PageAlreadyMapped(to) => Lookup(s, idx).Leaf? && to == frame
        case MappedToHugePage => Lookup(s, idx) == HugePage
        case FrameAllocationFailed => Lookup(s, idx) == NotMapped && left == [])
  }

  /**
    The page table refines a flat map: success adds exactly one translation, every failure
    changes none, and the kind of answer is decided by the old translation of the page.
   */
  lemma MapToRefines(s: Space, idx: seq<nat>, frame: nat, flags: Flags, supply: Supply)
    requires Valid(s) && ValidIndices(idx) && Fresh(s, supply) && Present in flags
    ensures var (s', r, left) := MapTo(s, idx, frame, flags, supply);
            MapToOk(s, idx, frame, flags, supply, s', r, left)
  {
    assert TableOk(s, s.root);
    var (s1, d, left) := Descend(s, s.root, idx, flags * PARENT_FLAGS, supply);
    DescendKeeps(s, s.root, idx, flags * PARENT_FLAGS, supply);
    TranslateByWalk(s.tables, s.root, idx);
    TranslateByWalk(s1.tables, s.root, idx);
    assert Lookup(s1, idx) == Lookup(s, idx);
    if d.Table? {
      assert [] + idx[..3] == idx[..3];
      assert TableOk(s1, d.frame);
      if s1.tables[d.frame][idx[3]].IsUnused() {
        LeafWrite(s1, d.frame, Entry(frame, flags), idx);
        var (s', r, left') := MapTo(s, idx, frame, flags, supply);
        forall j | ValidIndices(j) && j != idx ensures Lookup(s', j) == Lookup(s, j) {
          assert Lookup(s1, j) == Lookup(s, j);
        }
      }
    }
  }
}
