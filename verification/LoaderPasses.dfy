/** The second loading pass in place, and tables on which the two passes part. */
module LoaderPasses {
  import opened Alignment
  import opened LoaderLayout
  import opened Options

  /** Copy a section's bytes, or zeros, into the mapping at the next aligned offset. */
  method PutInPlace(memory: array<nat>, offset: nat, h: Header) returns (status: Status, at: nat)
    requires Formed(h)
    modifies memory
    ensures
      match PutSection(old(memory[..]), offset, h)
      case PutPanicked => status == Panic && memory[..] == old(memory[..])
      case PutFailed => status == Error && memory[..] == old(memory[..])
      case Stored(o, m) => status == Fine && at == o && memory[..] == m
  {
    at := AlignUp(offset, h.align);
    if at >= memory.Length || at + h.size > memory.Length {
      return Panic, at;
    }
    if h.kind == Other {
      return Error, at;
    }
    ghost var before, image := memory[..], Image(h);
    for j := 0 to h.size
      invariant memory[..] == before[..at] + image[..j] + before[at + j..]
    {
      memory[at + j] := if h.kind.Stored() then h.bytes[j] else 0;
      CopyStep(before, image, at, j, memory[..]);
    }
    assert image[..h.size] == image;
    return Fine, at;
  }

  lemma CopyStep(before: seq<nat>, image: seq<nat>, at: nat, j: nat, now: seq<nat>)
    requires j < |image| && at + |image| <= |before|
    requires now == (before[..at] + image[..j] + before[at + j..])[at + j := image[j]]
    ensures now == before[..at] + image[..j + 1] + before[at + j + 1..]
  {
  }

  method LoadObjectSections(hs: seq<Header>, sizes: Sizes, readOnly: array<nat>, readWrite: array<nat>)
    returns (status: Status, placed: seq<Placement>)
    requires AllFormed(hs) && readOnly != readWrite
    modifies readOnly, readWrite
    ensures
      match Place(hs, sizes, Progress(0, 0, [], old(readOnly[..]), old(readWrite[..])), |hs|)
      case Panicked => status == Panic
      case Failed => status == Error
      case Going(p) => status == Fine && p.placed == placed && p.readOnly == readOnly[..] && p.readWrite == readWrite[..]
  {
    ghost var start := Progress(0, 0, [], readOnly[..], readWrite[..]);
    var roOffset: nat, rwOffset: nat := 0, 0;
    placed := [];
    for i := 0 to |hs|
      invariant Place(hs, sizes, start, i) == Going(Progress(roOffset, rwOffset, placed, readOnly[..], readWrite[..]))
    {
      if hs[i].alloc {
        if hs[i].kind == Null || (hs[i].size == 0 && i + 1 >= |hs|) {
          PlaceStops(hs, sizes, start, i + 1, |hs|);
          return Error, placed;
        }
        var h := if hs[i].size == 0 && hs[i + 1].offset == hs[i].offset then hs[i + 1] else hs[i];
        status, roOffset, rwOffset, placed := LoadSection(sizes, readOnly, readWrite, roOffset, rwOffset, placed, i, hs[i], h);
        if status != Fine {
          PlaceStops(hs, sizes, start, i + 1, |hs|);
          return;
        }
      }
    }
    status := Fine;
  }

  method LoadSection(sizes: Sizes, readOnly: array<nat>, readWrite: array<nat>, roOffset: nat, rwOffset: nat,
                     placed: seq<Placement>, i: nat, flags: Header, h: Header)
    returns (status: Status, roOffset': nat, rwOffset': nat, placed': seq<Placement>)
    requires Formed(h) && readOnly != readWrite
    modifies readOnly, readWrite
    ensures
      match PlaceOne(sizes, Progress(roOffset, rwOffset, placed, old(readOnly[..]), old(readWrite[..])), i, flags, h)
      case Panicked => status == Panic
      case Failed => status == Error
      case Going(p) => status == Fine && p == Progress(roOffset', rwOffset', placed', readOnly[..], readWrite[..])
  {
    status, roOffset', rwOffset', placed' := Fine, roOffset, rwOffset, placed;
    var group := Classify(flags);
    var name := NameAfter(flags.name, Prefix(group, h.kind));
    if group == Unhandled {
      return Error, roOffset, rwOffset, placed;
    }
    var missing := if group == IsText then sizes.exec == 0 else if group == IsData then readWrite.Length == 0 else readOnly.Length == 0;
    if missing || name == Placeholder {
      return;
    }
    if name == Bad {
      return Error, roOffset, rwOffset, placed;
    }
    var at: nat;
    match group {
      case IsText =>
        placed' := placed + [Placement(i, Text, h.offset, h)];
      case IsTls =>
        status := if h.kind != NoBits && AlignUp(roOffset, h.align) + h.size > readOnly.Length then Panic else Error;
      case IsData =>
        status, at := PutInPlace(readWrite, rwOffset, h);
        rwOffset', placed' := at + h.size, placed + [Placement(i, ReadWrite, at, h)];
      case IsReadOnly(_) =>
        status, at := PutInPlace(readOnly, roOffset, h);
        roOffset', placed' := at + h.size, placed + [Placement(i, ReadOnly, at, h)];
    }
  }

  /** The length of the prefix each branch strips from a section's name. */
  function Prefix(group: Class, kind: Type): (n: nat) {
    match group
    case IsText => 6
    case IsTls => if kind == NoBits then 6 else 7
    case IsData => if kind == NoBits then 5 else 6
    case IsReadOnly(prefix) => prefix
    case Unhandled => 0
  }

  lemma {:induction false} PlaceStops(hs: seq<Header>, sizes: Sizes, start: Progress, i: nat, k: nat)
    requires i <= k <= |hs| && AllFormed(hs) && !Place(hs, sizes, start, i).Going?
    ensures Place(hs, sizes, start, k) == Place(hs, sizes, start, i)
    decreases k
  {
    if i < k {
      PlaceStops(hs, sizes, start, i, k - 1);
    }
  }

  // --- Where the passes part ---------------------------------------------------------------------------

  function Zeroed(name: string, exec: bool, size: nat, offset: nat): (h: Header) {
    Header(name, NoBits, true, true, exec, false, size, 1, offset, [])
  }

  /** Two headers of which the second pass wants more than the first pass measured. */
  lemma PairOverruns(a: Header, b: Header, start: Progress)
    requires Formed(a) && Formed(b) && (a.size == 0 ==> a.offset == b.offset && a.name == ".text") && b.size == 8
    requires a == Zeroed(a.name, false, a.size, a.offset) && b == Zeroed(b.name, b.exec, 8, b.offset)
    requires |a.name| >= 5 && |b.name| >= 5 && (a.size == 8 || a.size == 0) && a.size + (if b.exec then 0 else 8) == 8
    requires |start.readOnly| == 0 && |start.readWrite| == 8 && start.roOffset == start.rwOffset == 0 && start.placed == []
    ensures Measure([a, b], 2).Some? && Fresh(start, Measure([a, b], 2).value)
    ensures Place([a, b], Measure([a, b], 2).value, start, 2) == Panicked
  {
    var hs := [a, b];
    AlignUpLeast(0, 1);
    AlignUpLeast(8, 1);
    assert Measure(hs, 0) == Some(Sizes(0, 0, 0));
    assert Measure(hs, 1) == Some(Sizes(0, 0, a.size));
    var sizes := Measure(hs, 2).value;
    assert Place(hs, sizes, start, 0) == Going(start);
    assert Place(hs, sizes, start, 1).Going? && Place(hs, sizes, start, 1).p.rwOffset == 8;
  }

  /** Writable code is measured as code and placed as data. */
  lemma WritableCodeOverruns(start: Progress)
    requires |start.readOnly| == 0 && |start.readWrite| == 8 && start.roOffset == start.rwOffset == 0 && start.placed == []
    ensures
      var hs := [Zeroed(".data.a", false, 8, 0), Zeroed(".data.b", true, 8, 8)];
      && Measure(hs, 2).Some? && Fresh(start, Measure(hs, 2).value)
      && Place(hs, Measure(hs, 2).value, start, 2) == Panicked
  {
    PairOverruns(Zeroed(".data.a", false, 8, 0), Zeroed(".data.b", true, 8, 8), start);
  }

  /** An empty writable `.text` is measured as empty and placed as the section behind it. */
  lemma OddTextOverruns(start: Progress)
    requires |start.readOnly| == 0 && |start.readWrite| == 8 && start.roOffset == start.rwOffset == 0 && start.placed == []
    ensures
      var hs := [Zeroed(".text", false, 0, 64), Zeroed(".bss.x", false, 8, 64)];
      && Odd(hs, 0) && Measure(hs, 2).Some? && Fresh(start, Measure(hs, 2).value)
      && Place(hs, Measure(hs, 2).value, start, 2) == Panicked
  {
    PairOverruns(Zeroed(".text", false, 0, 64), Zeroed(".bss.x", false, 8, 64), start);
  }

  /** TLS data of a type that the first pass does not count is still copied by the second. */
  lemma OddTlsOverruns(start: Progress, a: Header, b: Header)
    requires |start.readOnly| == 1 && |start.readWrite| == 0 && start.roOffset == start.rwOffset == 0 && start.placed == []
    requires a == Header(".rodata.a", NoBits, true, false, false, false, 1, 1, 0, [])
    requires b == Header(".tdata.x", Other, true, false, false, true, 16, 1, 8, [])
    ensures
      var hs := [a, b];
      && Measure(hs, 2).Some? && Fresh(start, Measure(hs, 2).value)
      && Place(hs, Measure(hs, 2).value, start, 2) == Panicked
  {
    var hs := [a, b];
    AlignUpLeast(0, 1);
    AlignUpLeast(1, 1);
    assert ".rodata" <= ".rodata.a";
    assert Measure(hs, 0) == Some(Sizes(0, 0, 0));
    assert Measure(hs, 1) == Some(Sizes(0, 1, 0));
    assert Measure(hs, 2) == Some(Sizes(0, 1, 0));
    var sizes := Measure(hs, 2).value;
    assert Place(hs, sizes, start, 0) == Going(start);
    assert Place(hs, sizes, start, 1).Going? && Place(hs, sizes, start, 1).p.roOffset == 1 && |Place(hs, sizes, start, 1).p.readOnly| == 1;
  }

  /** A plain table whose last placed section is empty and begins at the end of its mapping. */
  lemma EmptyAtEndPanics(start: Progress, a: Header, b: Header, c: Header)
    requires |start.readOnly| == 0 && |start.readWrite| == 8 && start.roOffset == start.rwOffset == 0 && start.placed == []
    requires a == Zeroed(".bss.a", false, 8, 0) && b == Zeroed(".bss.b", false, 0, 8)
    requires c == Header(".comment", ProgBits, false, false, false, false, 0, 1, 16, [])
    ensures
      var hs := [a, b, c];
      && Measure(hs, 3).Some? && Fresh(start, Measure(hs, 3).value) && AllPlain(hs)
      && Place(hs, Measure(hs, 3).value, start, 3) == Panicked
  {
    var hs := [a, b, c];
    AlignUpLeast(0, 1);
    AlignUpLeast(8, 1);
    assert Measure(hs, 0) == Some(Sizes(0, 0, 0));
    assert Measure(hs, 1) == Some(Sizes(0, 0, 8));
    assert Measure(hs, 2) == Some(Sizes(0, 0, 8));
    var sizes := Measure(hs, 3).value;
    assert Place(hs, sizes, start, 0) == Going(start);
    assert Place(hs, sizes, start, 1).Going? && Place(hs, sizes, start, 1).p.rwOffset == 8 && |Place(hs, sizes, start, 1).p.readWrite| == 8;
    assert Place(hs, sizes, start, 2) == Panicked;
    forall i | 0 <= i < |hs| ensures Plain(hs, i) {
    }
  }
}
