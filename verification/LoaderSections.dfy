/**
  Which sections of a table are loaded, where they go, and what stops a load, told by the flags
  and names in the table.
 */
module LoaderSections {
  import opened Alignment
  import opened LoaderLayout
  import opened Options

  /** An empty section stands for the one after it if both start at the same place in the file. */
  ghost predicate StandsFor(hs: seq<Header>, i: nat, h: Header)
    requires i < |hs|
  {
    if hs[i].size != 0 then h == hs[i]
    else i + 1 < |hs| && h == if hs[i + 1].offset == hs[i].offset then hs[i + 1] else hs[i]
  }

  /** The mapping a section is placed in, by its own flags and name; none if it is passed over. */
  ghost function Home(sizes: Sizes, flags: Header, h: Header): (t: Option<Target>) {
    var n := |flags.name|;
    if flags.exec && !flags.write then
      if sizes.exec > 0 && 6 <= n then Some(Text) else None
    else if flags.tls then None
    else if flags.write then
      if sizes.readWrite > 0 && (if h.kind == NoBits then 5 else 6) <= n then Some(ReadWrite) else None
    else if sizes.readOnly == 0 then None
    else if ".rodata" <= flags.name then (if 8 <= n then Some(ReadOnly) else None)
    else if ".lrodata" <= flags.name then (if 9 <= n then Some(ReadOnly) else None)
    else if ".gcc_except_table" <= flags.name || flags.name == ".eh_frame" then Some(ReadOnly)
    else None
  }

  // --- Every section is placed, once ----------------------------------------------------------------

  /** An entry is for an allocated section, with the content it stands for, in its own mapping. */
  ghost predicate EntryFor(hs: seq<Header>, sizes: Sizes, x: Placement) {
    && x.index < |hs| && hs[x.index].alloc && StandsFor(hs, x.index, x.section)
    && Home(sizes, hs[x.index], x.section) == Some(x.target)
  }

  ghost predicate Missing(hs: seq<Header>, sizes: Sizes, placed: seq<Placement>, i: nat)
    requires i < |hs|
  {
    && hs[i].alloc && (exists h :: StandsFor(hs, i, h) && Home(sizes, hs[i], h).Some?)
    && forall n :: 0 <= n < |placed| ==> placed[n].index != i
  }

  /** The entries are those of the first `k` sections that have a home, one each, in table order. */
  ghost predicate Complete(hs: seq<Header>, sizes: Sizes, placed: seq<Placement>, k: nat)
    requires k <= |hs|
  {
    && (forall n {:trigger EntryFor(hs, sizes, placed[n])} :: 0 <= n < |placed| ==> EntryFor(hs, sizes, placed[n]) && placed[n].index < k)
    && (forall m, n {:trigger placed[m], placed[n]} :: 0 <= m < n < |placed| ==> placed[m].index < placed[n].index)
    && (forall i {:trigger Missing(hs, sizes, placed, i)} :: 0 <= i < k ==> !Missing(hs, sizes, placed, i))
  }

  lemma FollowStands(hs: seq<Header>, i: nat)
    requires i < |hs|
    ensures Follow(hs, i).Some? <==> !(hs[i].size == 0 && i + 1 == |hs|)
    ensures forall h :: StandsFor(hs, i, h) <==> Follow(hs, i) == Some(h)
  {
  }

  lemma CompleteSame(hs: seq<Header>, sizes: Sizes, placed: seq<Placement>, k: nat)
    requires k < |hs| && Complete(hs, sizes, placed, k)
    requires !hs[k].alloc || forall h :: StandsFor(hs, k, h) ==> Home(sizes, hs[k], h).None?
    ensures Complete(hs, sizes, placed, k + 1)
  {
    forall n | 0 <= n < |placed| ensures EntryFor(hs, sizes, placed[n]) && placed[n].index < k + 1 {
      assert EntryFor(hs, sizes, placed[n]);
    }
    forall i | 0 <= i < k + 1 ensures !Missing(hs, sizes, placed, i) {
      if i < k {
        assert !Missing(hs, sizes, placed, i);
      }
    }
  }

  lemma CompleteMore(hs: seq<Header>, sizes: Sizes, placed: seq<Placement>, k: nat, x: Placement)
    requires k < |hs| && Complete(hs, sizes, placed, k) && x.index == k && EntryFor(hs, sizes, x)
    ensures Complete(hs, sizes, placed + [x], k + 1)
  {
    var all := placed + [x];
    forall n | 0 <= n < |all| ensures EntryFor(hs, sizes, all[n]) && all[n].index < k + 1 {
      if n < |placed| {
        assert EntryFor(hs, sizes, placed[n]);
      }
    }
    forall m, n | 0 <= m < n < |all| ensures all[m].index < all[n].index {
      assert EntryFor(hs, sizes, placed[m]);
    }
    forall i | 0 <= i < k + 1 ensures !Missing(hs, sizes, all, i) {
      if i == k {
        assert all[|placed|].index == i;
      } else if hs[i].alloc && exists h :: StandsFor(hs, i, h) && Home(sizes, hs[i], h).Some? {
        assert !Missing(hs, sizes, placed, i);
        var n :| 0 <= n < |placed| && placed[n].index == i;
        assert all[n].index == i;
      }
    }
  }

  /** One section gets the entry that its flags and name ask for, or none. */
  lemma PlacedOne(hs: seq<Header>, sizes: Sizes, p: Progress, i: nat, h: Header)
    requires i < |hs| && AllFormed(hs) && hs[i].alloc && Follow(hs, i) == Some(h) && PlaceOne(sizes, p, i, hs[i], h).Going?
    requires |p.readOnly| == sizes.readOnly && |p.readWrite| == sizes.readWrite
    ensures
      var placed := PlaceOne(sizes, p, i, hs[i], h).p.placed;
      match Home(sizes, hs[i], h)
      case None => placed == p.placed
      case Some(t) => |placed| == |p.placed| + 1 && placed == p.placed + [placed[|p.placed|]]
                      && placed[|p.placed|].index == i && placed[|p.placed|].target == t && placed[|p.placed|].section == h
  {
    ReadOnlyNames(hs[i].name);
  }

  /** The prefixes of read-only names exclude each other. */
  lemma ReadOnlyNames(name: string)
    ensures !(".rodata" <= name && ".lrodata" <= name) && !(".rodata" <= name && ".gcc_except_table" <= name)
    ensures !(".lrodata" <= name && ".gcc_except_table" <= name)
    ensures name == ".eh_frame" ==> !(".rodata" <= name) && !(".lrodata" <= name) && !(".gcc_except_table" <= name)
  {
    assert ".rodata"[1] == 'r' && ".lrodata"[1] == 'l' && ".gcc_except_table"[1] == 'g' && ".eh_frame"[1] == 'e';
  }

  /**
    Whenever the second pass gets to section `k`, exactly the sections before it that have a home
    are loaded, each once, with the content it stands for, in the mapping its flags ask for.
   */
  lemma {:induction false} EverySectionPlaced(hs: seq<Header>, start: Progress, k: nat)
    requires k <= |hs| && AllFormed(hs) && Measure(hs, |hs|).Some? && Fresh(start, Measure(hs, |hs|).value)
    ensures
      var sizes := Measure(hs, |hs|).value;
      var r := Place(hs, sizes, start, k);
      r.Going? ==> Complete(hs, sizes, r.p.placed, k)
  {
    var sizes := Measure(hs, |hs|).value;
    if k > 0 && Place(hs, sizes, start, k).Going? {
      EverySectionPlaced(hs, start, k - 1);
      LoadedLayout(hs, start, k - 1);
      var p, i := Place(hs, sizes, start, k - 1).p, k - 1;
      FollowStands(hs, i);
      if hs[i].alloc {
        var h := Follow(hs, i).value;
        PlacedOne(hs, sizes, p, i, h);
        if Home(sizes, hs[i], h).Some? {
          var placed := PlaceOne(sizes, p, i, hs[i], h).p.placed;
          CompleteMore(hs, sizes, p.placed, i, placed[|p.placed|]);
        } else {
          CompleteSame(hs, sizes, p.placed, i);
        }
      } else {
        CompleteSame(hs, sizes, p.placed, i);
      }
    }
  }

  // --- What is not written ------------------------------------------------------------------------------

  /** Some section of this mapping has the byte. */
  ghost predicate Taken(placed: seq<Placement>, target: Target, a: nat) {
    exists n :: 0 <= n < |placed| && placed[n].target == target && placed[n].offset <= a < placed[n].End()
  }

  /** Bytes that no section was given are as they were when the mappings were handed out. */
  ghost predicate GapsKept(start: Progress, p: Progress) {
    && |p.readOnly| == |start.readOnly| && |p.readWrite| == |start.readWrite|
    && (forall a: nat :: a < |p.readOnly| && !Taken(p.placed, ReadOnly, a) ==> p.readOnly[a] == start.readOnly[a])
    && (forall a: nat :: a < |p.readWrite| && !Taken(p.placed, ReadWrite, a) ==> p.readWrite[a] == start.readWrite[a])
  }

  lemma PutElsewhere(memory: seq<nat>, offset: nat, h: Header, a: nat)
    requires Formed(h) && PutSection(memory, offset, h).Stored? && a < |memory|
    ensures
      var r := PutSection(memory, offset, h);
      |r.memory| == |memory| && (!(r.offset <= a < r.offset + h.size) ==> r.memory[a] == memory[a])
  {
    ImageSize(h);
  }

  lemma TakenMore(placed: seq<Placement>, x: Placement, target: Target, a: nat)
    ensures Taken(placed + [x], target, a) <==> Taken(placed, target, a) || (x.target == target && x.offset <= a < x.End())
  {
    var all := placed + [x];
    if Taken(placed, target, a) {
      var n :| 0 <= n < |placed| && placed[n].target == target && placed[n].offset <= a < placed[n].End();
      assert all[n] == placed[n];
    }
    if x.target == target && x.offset <= a < x.End() {
      assert all[|placed|] == x;
    }
  }

  lemma GapsStay(start: Progress, p: Progress, p': Progress, x: Placement)
    requires GapsKept(start, p) && p'.placed == p.placed + [x]
    requires |p'.readOnly| == |p.readOnly| && |p'.readWrite| == |p.readWrite|
    requires forall a: nat :: a < |p.readOnly| && !(x.target == ReadOnly && x.offset <= a < x.End()) ==> p'.readOnly[a] == p.readOnly[a]
    requires forall a: nat :: a < |p.readWrite| && !(x.target == ReadWrite && x.offset <= a < x.End()) ==> p'.readWrite[a] == p.readWrite[a]
    ensures GapsKept(start, p')
  {
    forall a: nat | a < |p'.readOnly| && !Taken(p'.placed, ReadOnly, a) ensures p'.readOnly[a] == start.readOnly[a] {
      TakenMore(p.placed, x, ReadOnly, a);
    }
    forall a: nat | a < |p'.readWrite| && !Taken(p'.placed, ReadWrite, a) ensures p'.readWrite[a] == start.readWrite[a] {
      TakenMore(p.placed, x, ReadWrite, a);
    }
  }

  lemma GapsOne(start: Progress, sizes: Sizes, p: Progress, i: nat, flags: Header, h: Header)
    requires Formed(h) && GapsKept(start, p) && PlaceOne(sizes, p, i, flags, h).Going?
    ensures GapsKept(start, PlaceOne(sizes, p, i, flags, h).p)
  {
    var p' := PlaceOne(sizes, p, i, flags, h).p;
    if p' != p {
      forall a: nat | a < |p.readOnly| && PutSection(p.readOnly, p.roOffset, h).Stored?
        ensures
          var r := PutSection(p.readOnly, p.roOffset, h);
          |r.memory| == |p.readOnly| && (!(r.offset <= a < r.offset + h.size) ==> r.memory[a] == p.readOnly[a])
      {
        PutElsewhere(p.readOnly, p.roOffset, h, a);
      }
      forall a: nat | a < |p.readWrite| && PutSection(p.readWrite, p.rwOffset, h).Stored?
        ensures
          var r := PutSection(p.readWrite, p.rwOffset, h);
          |r.memory| == |p.readWrite| && (!(r.offset <= a < r.offset + h.size) ==> r.memory[a] == p.readWrite[a])
      {
        PutElsewhere(p.readWrite, p.rwOffset, h, a);
      }
      GapsStay(start, p, p', p'.placed[|p.placed|]);
    }
  }

  lemma {:induction false} NothingElseWritten(hs: seq<Header>, sizes: Sizes, start: Progress, k: nat)
    requires k <= |hs| && AllFormed(hs) && start.placed == []
    ensures Place(hs, sizes, start, k).Going? ==> GapsKept(start, Place(hs, sizes, start, k).p)
  {
    if k > 0 && Place(hs, sizes, start, k).Going? {
      NothingElseWritten(hs, sizes, start, k - 1);
      if hs[k - 1].alloc {
        GapsOne(start, sizes, Place(hs, sizes, start, k - 1).p, k - 1, hs[k - 1], Follow(hs, k - 1).value);
      }
    }
  }

  // --- What stops a load ------------------------------------------------------------------------------

  ghost predicate Bare(name: string) {
    name == ".text" || name == ".rodata" || name == ".data" || name == ".bss"
  }

  /** Too short for what is left behind its prefix, and not one of the four bare names. */
  ghost predicate BadName(name: string, prefix: nat) {
    |name| < prefix && !Bare(name)
  }

  /** A section overruns the mapping that has `size` bytes, `offset` of them taken. */
  ghost predicate Overruns(offset: nat, h: Header, size: nat)
    requires h.align > 0
  {
    AlignUp(offset, h.align) >= size || AlignUp(offset, h.align) + h.size > size
  }

  /** How a section ends the load, if it does. */
  ghost function Stops(sizes: Sizes, p: Progress, flags: Header, h: Header): (e: Option<Status>)
    requires h.align > 0
  {
    var name := flags.name;
    if flags.exec && !flags.write then
      if sizes.exec > 0 && BadName(name, 6) then Some(Error) else None
    else if flags.tls then
      var n := if h.kind == NoBits then 6 else 7;
      if sizes.readOnly == 0 || (|name| < n && Bare(name)) then None
      else if n <= |name| && h.kind != NoBits && AlignUp(p.roOffset, h.align) + h.size > sizes.readOnly then Some(Panic)
      else Some(Error)
    else if flags.write then
      if sizes.readWrite == 0 then None
      else DataStops(name, if h.kind == NoBits then 5 else 6, p.rwOffset, h, sizes.readWrite)
    else if ".rodata" <= name then
      if sizes.readOnly == 0 then None else DataStops(name, 8, p.roOffset, h, sizes.readOnly)
    else if ".lrodata" <= name then
      if sizes.readOnly == 0 then None else DataStops(name, 9, p.roOffset, h, sizes.readOnly)
    else if ".gcc_except_table" <= name || name == ".eh_frame" then
      if sizes.readOnly == 0 then None else DataStops(name, 0, p.roOffset, h, sizes.readOnly)
    else Some(Error)
  }

  ghost function DataStops(name: string, prefix: nat, offset: nat, h: Header, size: nat): (e: Option<Status>)
    requires h.align > 0
  {
    if BadName(name, prefix) then Some(Error)
    else if |name| < prefix then None
    else if Overruns(offset, h, size) then Some(Panic)
    else if h.kind == Other then Some(Error)
    else None
  }

  /** How section `i` ends the load when it is reached. */
  ghost function StopsAt(hs: seq<Header>, sizes: Sizes, p: Progress, i: nat): (e: Option<Status>)
    requires i < |hs| && AllFormed(hs)
  {
    if !hs[i].alloc then None
    else if hs[i].kind == Null || (hs[i].size == 0 && i + 1 == |hs|) then Some(Error)
    else Stops(sizes, p, hs[i], Follow(hs, i).value)
  }

  lemma StopsOne(sizes: Sizes, p: Progress, i: nat, flags: Header, h: Header)
    requires Formed(h) && |p.readOnly| == sizes.readOnly && |p.readWrite| == sizes.readWrite
    ensures
      match PlaceOne(sizes, p, i, flags, h)
      case Going(_) => Stops(sizes, p, flags, h) == None
      case Failed => Stops(sizes, p, flags, h) == Some(Error)
      case Panicked => Stops(sizes, p, flags, h) == Some(Panic)
  {
    ReadOnlyNames(flags.name);
  }

  /** Section `i` is reached and ends the load in this way. */
  ghost predicate EndsAt(hs: seq<Header>, start: Progress, i: nat, e: Status)
    requires i < |hs| && AllFormed(hs) && Measure(hs, |hs|).Some?
  {
    var sizes := Measure(hs, |hs|).value;
    Place(hs, sizes, start, i).Going? && StopsAt(hs, sizes, Place(hs, sizes, start, i).p, i) == Some(e)
  }

  /** For any table: a load is refused, panics, or goes through exactly as its sections say. */
  lemma {:induction false} LoadEndsIff(hs: seq<Header>, start: Progress, k: nat)
    requires k <= |hs| && AllFormed(hs) && Measure(hs, |hs|).Some? && Fresh(start, Measure(hs, |hs|).value)
    ensures
      var r := Place(hs, Measure(hs, |hs|).value, start, k);
      && (r.Failed? <==> exists i :: 0 <= i < k && EndsAt(hs, start, i, Error))
      && (r.Panicked? <==> exists i :: 0 <= i < k && EndsAt(hs, start, i, Panic))
  {
    var sizes := Measure(hs, |hs|).value;
    if k > 0 {
      LoadEndsIff(hs, start, k - 1);
      LoadedLayout(hs, start, k - 1);
      var r, i := Place(hs, sizes, start, k - 1), k - 1;
      FollowStands(hs, i);
      if r.Going? && hs[i].alloc && hs[i].kind != Null && Follow(hs, i).Some? {
        StopsOne(sizes, r.p, i, hs[i], Follow(hs, i).value);
      }
      assert Place(hs, sizes, start, k).Failed? <==> r.Failed? || EndsAt(hs, start, i, Error);
      assert Place(hs, sizes, start, k).Panicked? <==> r.Panicked? || EndsAt(hs, start, i, Panic);
    }
  }

  // --- The measure is no larger than it has to be ---------------------------------------------------

  /** A section that both passes put in the same mapping. */
  ghost predicate Counted(hs: seq<Header>, sizes: Sizes, i: nat)
    requires i < |hs|
  {
    hs[i].alloc ==>
      && !(hs[i].write && hs[i].exec) && hs[i].name != ".text"
      && exists h :: StandsFor(hs, i, h) && Home(sizes, hs[i], h).Some?
  }

  /** Where every section is counted and placed, the second pass uses exactly what the first measured. */
  lemma {:induction false} SnugFit(hs: seq<Header>, start: Progress, k: nat)
    requires k <= |hs| && AllFormed(hs) && Measure(hs, |hs|).Some? && Fresh(start, Measure(hs, |hs|).value)
    requires Place(hs, Measure(hs, |hs|).value, start, k).Going?
    requires forall i {:trigger Counted(hs, Measure(hs, |hs|).value, i)} :: 0 <= i < k ==> Counted(hs, Measure(hs, |hs|).value, i)
    ensures
      var p := Place(hs, Measure(hs, |hs|).value, start, k).p;
      Measure(hs, k).Some? && p.roOffset == Measure(hs, k).value.readOnly && p.rwOffset == Measure(hs, k).value.readWrite
  {
    var sizes := Measure(hs, |hs|).value;
    if k > 0 {
      SnugFit(hs, start, k - 1);
      LoadedLayout(hs, start, k - 1);
      var p, i := Place(hs, sizes, start, k - 1).p, k - 1;
      assert Counted(hs, sizes, i);
      FollowStands(hs, i);
      MeasureGrows(hs, k, |hs|);
      if hs[i].alloc {
        ReadOnlyNames(hs[i].name);
      }
    }
  }

  /** The executable mapping reaches to the end of the last section of code, rounded up, and no further. */
  lemma {:induction false} ExecMeasured(hs: seq<Header>, k: nat)
    requires k <= |hs| && AllFormed(hs) && Measure(hs, k).Some?
    ensures
      var exec := Measure(hs, k).value.exec;
      && (forall i {:trigger Measured(hs, i)} :: 0 <= i < k && hs[i].alloc && hs[i].exec && Measured(hs, i).Some? ==> CodeEnd(Measured(hs, i).value) <= exec)
      && (exec == 0 || exists i {:trigger Measured(hs, i)} ::
            0 <= i < k && hs[i].alloc && hs[i].exec && Measured(hs, i).Some? && Formed(Measured(hs, i).value) && exec == CodeEnd(Measured(hs, i).value))
  {
    if k > 0 {
      ExecMeasured(hs, k - 1);
      var h := Measured(hs, k - 1);
    }
  }

  ghost function CodeEnd(h: Header): (e: nat) {
    if h.align > 0 then h.offset + AlignUp(h.size, h.align) else 0
  }
}
