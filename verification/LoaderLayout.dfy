/**
  Laying out an object's sections.  A first pass over the section table measures the three
  mappings; a second pass, written separately, places each section in them.
 */
module LoaderLayout {
  import opened Alignment
  import opened Options

  /**
    What a section header says about its content: program data, other data that is copied as it
    is (operating-system, processor and user specific types), zeroed memory, nothing, or data of
    a structure that the loader does not take.
   */
  datatype Type = ProgBits | Copied | NoBits | Null | Other {
    predicate Stored() { ProgBits? || Copied? }
  }

  /** A section header; `bytes` is the section's content in the file. */
  datatype Header = Header(name: string, kind: Type, alloc: bool, write: bool, exec: bool, tls: bool,
                           size: nat, align: nat, offset: nat, bytes: seq<nat>)

  ghost predicate Formed(h: Header) {
    h.align > 0 && (h.kind.Stored() ==> |h.bytes| == h.size)
  }

  ghost predicate AllFormed(hs: seq<Header>) {
    forall i {:trigger hs[i]} :: 0 <= i < |hs| ==> Formed(hs[i])
  }

  /** The section a header stands for: an empty one stands for the next if both start at one offset. */
  function Follow(hs: seq<Header>, i: nat): (h: Option<Header>)
    requires i < |hs|
    ensures AllFormed(hs) && h.Some? ==> Formed(h.value)
  {
    if hs[i].size != 0 then Some(hs[i])
    else if i + 1 >= |hs| then None
    else if hs[i + 1].offset == hs[i].offset then Some(hs[i + 1])
    else Some(hs[i])
  }

  // --- First pass ------------------------------------------------------------------------------------

  datatype Sizes = Sizes(exec: nat, readOnly: nat, readWrite: nat)

  /** The first pass does not look behind an empty `.text`. */
  function Measured(hs: seq<Header>, i: nat): (h: Option<Header>)
    requires i < |hs|
    ensures AllFormed(hs) && h.Some? ==> Formed(h.value)
  {
    if hs[i].name == ".text" && hs[i].kind != Null then Some(hs[i]) else Follow(hs, i)
  }

  function Max(a: nat, b: nat): (c: nat) {
    if a < b then b else a
  }

  function MeasureOne(s: Sizes, flags: Header, h: Header): (r: Sizes)
    requires h.align > 0
  {
    if flags.exec then Sizes(Max(s.exec, h.offset + AlignUp(h.size, h.align)), s.readOnly, s.readWrite)
    else if flags.tls then
      if h.kind == ProgBits then Sizes(s.exec, AlignUp(s.readOnly, h.align) + h.size, s.readWrite) else s
    else if flags.write then Sizes(s.exec, s.readOnly, AlignUp(s.readWrite, h.align) + h.size)
    else Sizes(s.exec, AlignUp(s.readOnly, h.align) + h.size, s.readWrite)
  }

  /** The lengths after the first `k` sections; nothing if an empty section is the last one. */
  function Measure(hs: seq<Header>, k: nat): (r: Option<Sizes>)
    requires k <= |hs| && AllFormed(hs)
  {
    if k == 0 then Some(Sizes(0, 0, 0))
    else
      match Measure(hs, k - 1)
      case None => None
      case Some(s) =>
        if !hs[k - 1].alloc then Some(s)
        else if Measured(hs, k - 1).None? then None
        else Some(MeasureOne(s, hs[k - 1], Measured(hs, k - 1).value))
  }

  // --- Second pass -----------------------------------------------------------------------------------

  datatype Target = Text | ReadOnly | ReadWrite

  /** A section in memory: which header, which mapping, where in it. */
  datatype Placement = Placement(index: nat, target: Target, offset: nat, section: Header) {
    function End(): (e: nat) { offset + section.size }
  }

  /** `readOnly` and `readWrite` are the contents of the two mappings, as long as they were measured. */
  datatype Progress = Progress(roOffset: nat, rwOffset: nat, placed: seq<Placement>, readOnly: seq<nat>, readWrite: seq<nat>)

  datatype Outcome = Going(p: Progress) | Failed | Panicked

  /** What is left of a section's name behind its prefix: the four bare names have nothing and are skipped. */
  datatype Name = Usable | Placeholder | Bad

  function NameAfter(name: string, prefix: nat): (r: Name) {
    if prefix <= |name| then Usable
    else if name == ".text" || name == ".rodata" || name == ".data" || name == ".bss" then Placeholder
    else Bad
  }

  datatype Class = IsText | IsTls | IsData | IsReadOnly(prefix: nat) | Unhandled

  predicate Starts(name: string, prefix: string) {
    prefix <= name
  }

  function Classify(h: Header): (c: Class) {
    if h.exec && !h.write then IsText
    else if h.tls then IsTls
    else if h.write then IsData
    else if Starts(h.name, ".rodata") then IsReadOnly(8)
    else if Starts(h.name, ".lrodata") then IsReadOnly(9)
    else if Starts(h.name, ".gcc_except_table") then IsReadOnly(0)
    else if h.name == ".eh_frame" then IsReadOnly(0)
    else Unhandled
  }

  /** What a section's memory holds once it is loaded. */
  function Image(h: Header): (b: seq<nat>) {
    if h.kind.Stored() then h.bytes else seq(h.size, _ => 0)
  }

  datatype Put = Stored(offset: nat, memory: seq<nat>) | PutFailed | PutPanicked

  /** Place a section at the next aligned offset.  Both assertions of the source can panic. */
  function PutSection(memory: seq<nat>, offset: nat, h: Header): (r: Put)
    requires Formed(h)
  {
    var at := AlignUp(offset, h.align);
    if at >= |memory| then PutPanicked
    else if at + h.size > |memory| then PutPanicked
    else if h.kind == Other then PutFailed
    else Stored(at, memory[..at] + Image(h) + memory[at + h.size..])
  }

  function PlaceReadOnly(p: Progress, i: nat, h: Header): (r: Outcome)
    requires Formed(h)
  {
    match PutSection(p.readOnly, p.roOffset, h)
    case PutPanicked => Panicked
    case PutFailed => Failed
    case Stored(at, memory) =>
      Going(Progress(at + h.size, p.rwOffset, p.placed + [Placement(i, ReadOnly, at, h)], memory, p.readWrite))
  }

  function PlaceData(p: Progress, i: nat, h: Header): (r: Outcome)
    requires Formed(h)
  {
    match PutSection(p.readWrite, p.rwOffset, h)
    case PutPanicked => Panicked
    case PutFailed => Failed
    case Stored(at, memory) =>
      Going(Progress(p.roOffset, at + h.size, p.placed + [Placement(i, ReadWrite, at, h)], p.readOnly, memory))
  }

  /** A TLS section is an error once its initialisation image, if it has one, is copied. */
  function PlaceTls(p: Progress, name: string, h: Header): (r: Outcome)
    requires Formed(h)
  {
    if p.readOnly == [] then Going(p)
    else
      match NameAfter(name, if h.kind == NoBits then 6 else 7)
      case Placeholder => Going(p)
      case Bad => Failed
      case Usable =>
        if h.kind != NoBits && AlignUp(p.roOffset, h.align) + h.size > |p.readOnly| then Panicked else Failed
  }

  /** The branch of one section; `flags` is its own header, `h` the one it stands for. */
  function PlaceOne(sizes: Sizes, p: Progress, i: nat, flags: Header, h: Header): (r: Outcome)
    requires Formed(h)
  {
    match Classify(flags)
    case IsText =>
      if sizes.exec == 0 then Going(p)
      else
        (match NameAfter(flags.name, 6)
         case Placeholder => Going(p)
         case Bad => Failed
         case Usable => Going(Progress(p.roOffset, p.rwOffset, p.placed + [Placement(i, Text, h.offset, h)], p.readOnly, p.readWrite)))
    case IsTls => PlaceTls(p, flags.name, h)
    case IsData =>
      if p.readWrite == [] then Going(p)
      else
        (match NameAfter(flags.name, if h.kind == NoBits then 5 else 6)
         case Placeholder => Going(p)
         case Bad => Failed
         case Usable => PlaceData(p, i, h))
    case IsReadOnly(prefix) =>
      if p.readOnly == [] then Going(p)
      else
        (match NameAfter(flags.name, prefix)
         case Placeholder => Going(p)
         case Bad => Failed
         case Usable => PlaceReadOnly(p, i, h))
    case Unhandled => Failed
  }

  /** The mappings as they are handed out, whatever their pages held before. */
  predicate Fresh(p: Progress, sizes: Sizes) {
    p.roOffset == p.rwOffset == 0 && p.placed == [] && |p.readOnly| == sizes.readOnly && |p.readWrite| == sizes.readWrite
  }

  function Place(hs: seq<Header>, sizes: Sizes, start: Progress, k: nat): (r: Outcome)
    requires k <= |hs| && AllFormed(hs)
  {
    if k == 0 then Going(start)
    else
      match Place(hs, sizes, start, k - 1)
      case Failed => Failed
      case Panicked => Panicked
      case Going(p) =>
        if !hs[k - 1].alloc then Going(p)
        else if hs[k - 1].kind == Null || Follow(hs, k - 1).None? then Failed
        else PlaceOne(sizes, p, k - 1, hs[k - 1], Follow(hs, k - 1).value)
  }

  // --- The passes in their own form ------------------------------------------------------------------

  method AllocateSectionMappings(hs: seq<Header>) returns (r: Option<Sizes>)
    requires AllFormed(hs)
    ensures r == Measure(hs, |hs|)
  {
    var exec: nat, readOnly: nat, readWrite: nat := 0, 0, 0;
    for i := 0 to |hs|
      invariant Measure(hs, i) == Some(Sizes(exec, readOnly, readWrite))
    {
      if hs[i].alloc {
        var h := hs[i];
        if h.size == 0 && (h.name != ".text" || h.kind == Null) {
          if i + 1 >= |hs| {
            MeasureStops(hs, i + 1, |hs|);
            return None;
          }
          if hs[i + 1].offset == h.offset {
            h := hs[i + 1];
          }
        }
        if hs[i].exec {
          exec := Max(exec, h.offset + AlignUp(h.size, h.align));
        } else if hs[i].tls {
          if h.kind == ProgBits {
            readOnly := AlignUp(readOnly, h.align) + h.size;
          }
        } else if hs[i].write {
          readWrite := AlignUp(readWrite, h.align) + h.size;
        } else {
          readOnly := AlignUp(readOnly, h.align) + h.size;
        }
      }
    }
    return Some(Sizes(exec, readOnly, readWrite));
  }

  lemma {:induction false} MeasureStops(hs: seq<Header>, i: nat, k: nat)
    requires i <= k <= |hs| && AllFormed(hs) && Measure(hs, i).None?
    ensures Measure(hs, k).None?
    decreases k
  {
    if i < k {
      MeasureStops(hs, i, k - 1);
    }
  }

  // --- Whatever is loaded is laid out soundly --------------------------------------------------------

  ghost predicate Within(memory: seq<nat>, limit: nat, x: Placement) {
    && Formed(x.section) && x.offset % x.section.align == 0 && x.End() <= limit <= |memory|
    && match x.section.kind
       case ProgBits => memory[x.offset..x.End()] == x.section.bytes
       case Copied => memory[x.offset..x.End()] == x.section.bytes
       case _ => forall a :: x.offset <= a < x.End() ==> memory[a] == 0
  }

  /** A placed section is aligned, inside its mapping, and holds its bytes, or zeros. */
  ghost predicate Sound(sizes: Sizes, p: Progress, x: Placement) {
    match x.target
    case Text => x.offset == x.section.offset && x.End() <= sizes.exec
    case ReadOnly => Within(p.readOnly, p.roOffset, x)
    case ReadWrite => Within(p.readWrite, p.rwOffset, x)
  }

  ghost predicate Before(x: Placement, y: Placement) {
    x.target == y.target != Text ==> x.End() <= y.offset
  }

  ghost predicate Laid(sizes: Sizes, p: Progress) {
    && p.roOffset <= |p.readOnly| == sizes.readOnly && p.rwOffset <= |p.readWrite| == sizes.readWrite
    && (forall i {:trigger Sound(sizes, p, p.placed[i])} :: 0 <= i < |p.placed| ==> Sound(sizes, p, p.placed[i]))
    && (forall i, j {:trigger Before(p.placed[i], p.placed[j])} :: 0 <= i < j < |p.placed| ==> Before(p.placed[i], p.placed[j]))
  }

  lemma ImageSize(h: Header)
    requires Formed(h)
    ensures |Image(h)| == h.size
  {
  }

  lemma PutWithin(memory: seq<nat>, offset: nat, h: Header, i: nat, target: Target)
    requires Formed(h) && PutSection(memory, offset, h).Stored?
    ensures
      var r := PutSection(memory, offset, h);
      && |r.memory| == |memory| && offset <= r.offset
      && Within(r.memory, r.offset + h.size, Placement(i, target, r.offset, h))
  {
    ImageSize(h);
    AlignUpLeast(offset, h.align);
    var r := PutSection(memory, offset, h);
    assert r.memory[r.offset..r.offset + h.size] == Image(h);
    if !h.kind.Stored() {
      forall a | r.offset <= a < r.offset + h.size ensures r.memory[a] == 0 {
        assert r.memory[a] == Image(h)[a - r.offset];
      }
    }
  }

  lemma PutKeeps(memory: seq<nat>, offset: nat, h: Header, x: Placement)
    requires Formed(h) && PutSection(memory, offset, h).Stored? && Within(memory, offset, x)
    ensures
      var r := PutSection(memory, offset, h);
      Within(r.memory, r.offset + h.size, x)
  {
    ImageSize(h);
    AlignUpLeast(offset, h.align);
    var r := PutSection(memory, offset, h);
    assert r.memory[x.offset..x.End()] == memory[x.offset..x.End()];
  }

  lemma Extended(sizes: Sizes, p: Progress, p': Progress, x: Placement)
    requires Laid(sizes, p) && p'.placed == p.placed + [x] && Sound(sizes, p', x)
    requires p'.roOffset <= |p'.readOnly| == sizes.readOnly && p'.rwOffset <= |p'.readWrite| == sizes.readWrite
    requires forall i {:trigger Sound(sizes, p', p.placed[i])} :: 0 <= i < |p.placed| ==> Sound(sizes, p', p.placed[i])
    requires x.target == ReadOnly ==> p.roOffset <= x.offset
    requires x.target == ReadWrite ==> p.rwOffset <= x.offset
    ensures Laid(sizes, p')
  {
    forall i | 0 <= i < |p'.placed| ensures Sound(sizes, p', p'.placed[i]) {
      if i < |p.placed| {
        assert Sound(sizes, p', p.placed[i]);
      }
    }
    forall i, j | 0 <= i < j < |p'.placed| ensures Before(p'.placed[i], p'.placed[j]) {
      if j < |p.placed| {
        assert Before(p.placed[i], p.placed[j]);
      } else {
        assert Sound(sizes, p, p.placed[i]);
      }
    }
  }

  lemma ReadOnlyLaid(sizes: Sizes, p: Progress, i: nat, h: Header)
    requires Laid(sizes, p) && Formed(h) && PlaceReadOnly(p, i, h).Going?
    ensures Laid(sizes, PlaceReadOnly(p, i, h).p)
  {
    var p' := PlaceReadOnly(p, i, h).p;
    var r := PutSection(p.readOnly, p.roOffset, h);
    PutWithin(p.readOnly, p.roOffset, h, i, ReadOnly);
    forall j | 0 <= j < |p.placed| ensures Sound(sizes, p', p.placed[j]) {
      assert Sound(sizes, p, p.placed[j]);
      if p.placed[j].target == ReadOnly {
        PutKeeps(p.readOnly, p.roOffset, h, p.placed[j]);
      }
    }
    Extended(sizes, p, p', Placement(i, ReadOnly, r.offset, h));
  }

  lemma DataLaid(sizes: Sizes, p: Progress, i: nat, h: Header)
    requires Laid(sizes, p) && Formed(h) && PlaceData(p, i, h).Going?
    ensures Laid(sizes, PlaceData(p, i, h).p)
  {
    var p' := PlaceData(p, i, h).p;
    var r := PutSection(p.readWrite, p.rwOffset, h);
    PutWithin(p.readWrite, p.rwOffset, h, i, ReadWrite);
    forall j | 0 <= j < |p.placed| ensures Sound(sizes, p', p.placed[j]) {
      assert Sound(sizes, p, p.placed[j]);
      if p.placed[j].target == ReadWrite {
        PutKeeps(p.readWrite, p.rwOffset, h, p.placed[j]);
      }
    }
    Extended(sizes, p, p', Placement(i, ReadWrite, r.offset, h));
  }

  lemma TextLaid(sizes: Sizes, p: Progress, i: nat, h: Header)
    requires Laid(sizes, p) && h.offset + h.size <= sizes.exec
    ensures Laid(sizes, Progress(p.roOffset, p.rwOffset, p.placed + [Placement(i, Text, h.offset, h)], p.readOnly, p.readWrite))
  {
    var x := Placement(i, Text, h.offset, h);
    var p' := Progress(p.roOffset, p.rwOffset, p.placed + [x], p.readOnly, p.readWrite);
    forall j | 0 <= j < |p.placed| ensures Sound(sizes, p', p.placed[j]) {
      assert Sound(sizes, p, p.placed[j]);
    }
    Extended(sizes, p, p', x);
  }

  lemma {:induction false} MeasureGrows(hs: seq<Header>, i: nat, k: nat)
    requires i <= k <= |hs| && AllFormed(hs) && Measure(hs, k).Some?
    ensures Measure(hs, i).Some?
    ensures
      var a, b := Measure(hs, i).value, Measure(hs, k).value;
      a.exec <= b.exec && a.readOnly <= b.readOnly && a.readWrite <= b.readWrite
    decreases k
  {
    if i < k {
      MeasureGrows(hs, i, k - 1);
    }
  }

  /** Text sections lie within the executable mapping, though the passes treat an empty `.text` differently. */
  lemma TextMeasured(hs: seq<Header>, i: nat)
    requires i < |hs| && AllFormed(hs) && Measure(hs, |hs|).Some? && hs[i].alloc && Follow(hs, i).Some?
    requires Classify(hs[i]) == IsText && NameAfter(hs[i].name, 6) == Usable
    ensures Follow(hs, i).value.offset + Follow(hs, i).value.size <= Measure(hs, |hs|).value.exec
  {
    MeasureGrows(hs, i + 1, |hs|);
    MeasureGrows(hs, i, |hs|);
    assert hs[i].name != ".text";
    var h := Follow(hs, i).value;
    assert Measure(hs, i + 1).value == MeasureOne(Measure(hs, i).value, hs[i], h);
  }

  /**
    Whenever loading succeeds: every section is aligned, within the mapping measured for it, and
    holds its own bytes; sections of one mapping are disjoint, in table order.
   */
  lemma {:induction false} LoadedLayout(hs: seq<Header>, start: Progress, k: nat)
    requires k <= |hs| && AllFormed(hs) && Measure(hs, |hs|).Some? && Fresh(start, Measure(hs, |hs|).value)
    ensures
      var sizes := Measure(hs, |hs|).value;
      var r := Place(hs, sizes, start, k);
      r.Going? ==> Laid(sizes, r.p)
  {
    var sizes := Measure(hs, |hs|).value;
    if k > 0 && Place(hs, sizes, start, k).Going? {
      LoadedLayout(hs, start, k - 1);
      var p, i := Place(hs, sizes, start, k - 1).p, k - 1;
      if hs[i].alloc {
        var h := Follow(hs, i).value;
        match Classify(hs[i]) {
          case IsText =>
            if sizes.exec > 0 && NameAfter(hs[i].name, 6) == Usable {
              TextMeasured(hs, i);
              TextLaid(sizes, p, i, h);
            }
          case IsData =>
            if PlaceData(p, i, h).Going? {
              DataLaid(sizes, p, i, h);
            }
          case IsReadOnly(_) =>
            if PlaceReadOnly(p, i, h).Going? {
              ReadOnlyLaid(sizes, p, i, h);
            }
          case _ =>
        }
      }
    }
  }

  // --- The two passes agree --------------------------------------------------------------------------

  /** A writable empty `.text` standing for zeroed memory: the first pass does not count what the second places. */
  ghost predicate Odd(hs: seq<Header>, i: nat)
    requires i < |hs|
  {
    && hs[i].name == ".text" && hs[i].write && hs[i].size == 0
    && i + 1 < |hs| && hs[i + 1].offset == hs[i].offset && hs[i + 1].kind == NoBits
  }

  /** Headers on which the passes agree: no writable code, no odd `.text`, TLS either program data or zeroed. */
  ghost predicate Plain(hs: seq<Header>, i: nat)
    requires i < |hs|
  {
    hs[i].alloc ==>
      && !(hs[i].write && hs[i].exec) && !Odd(hs, i)
      && (hs[i].tls && Follow(hs, i).Some? ==> Follow(hs, i).value.kind == ProgBits || Follow(hs, i).value.kind == NoBits)
  }

  ghost predicate AllPlain(hs: seq<Header>) {
    forall i {:trigger Plain(hs, i)} :: 0 <= i < |hs| ==> Plain(hs, i)
  }

  lemma AlignUpMono(a: nat, b: nat, align: nat)
    requires a <= b && align > 0
    ensures AlignUp(a, align) <= AlignUp(b, align)
  {
    AlignUpLeast(b, align);
    AlignUpLeast(a, align);
  }

  /** Progress has not got ahead of the measurement. */
  ghost predicate Behind(p: Progress, s: Sizes) {
    p.roOffset <= s.readOnly && p.rwOffset <= s.readWrite
  }

  /** A section placed in a mapping was measured for it, as the same section. */
  lemma SameSection(hs: seq<Header>, i: nat)
    requires i < |hs| && AllFormed(hs) && Plain(hs, i) && hs[i].alloc && hs[i].kind != Null && Follow(hs, i).Some?
    requires match Classify(hs[i])
             case IsData => NameAfter(hs[i].name, if Follow(hs, i).value.kind == NoBits then 5 else 6) == Usable
             case IsTls => NameAfter(hs[i].name, if Follow(hs, i).value.kind == NoBits then 6 else 7) == Usable
             case IsReadOnly(_) => true
             case _ => false
    ensures Measured(hs, i) == Follow(hs, i)
  {
    if hs[i].name == ".text" {
      assert !Starts(hs[i].name, ".rodata") && !Starts(hs[i].name, ".lrodata") && !Starts(hs[i].name, ".gcc_except_table") by {
        assert ".rodata"[1] != ".text"[1] && ".lrodata"[1] != ".text"[1];
      }
    }
  }

  /** The next section fits, so only the stricter of the two assertions can fail, and only for an empty section. */
  lemma PutFits(memory: seq<nat>, offset: nat, measured: nat, h: Header)
    requires Formed(h) && offset <= measured && AlignUp(measured, h.align) + h.size <= |memory|
    ensures PutSection(memory, offset, h).PutPanicked? <==> h.size == 0 && AlignUp(offset, h.align) == |memory|
    ensures AlignUp(offset, h.align) + h.size <= AlignUp(measured, h.align) + h.size
  {
    AlignUpMono(offset, measured, h.align);
  }

  ghost predicate Reaches(hs: seq<Header>, sizes: Sizes, p: Progress, i: nat)
    requires i < |hs| && hs[i].alloc && Follow(hs, i).Some? && AllFormed(hs)
  {
    var h := Follow(hs, i).value;
    h.size == 0 &&
    match Classify(hs[i])
    case IsData =>
      && p.readWrite != [] && NameAfter(hs[i].name, if h.kind == NoBits then 5 else 6) == Usable
      && AlignUp(p.rwOffset, h.align) == sizes.readWrite
    case IsReadOnly(prefix) =>
      p.readOnly != [] && NameAfter(hs[i].name, prefix) == Usable && AlignUp(p.roOffset, h.align) == sizes.readOnly
    case _ => false
  }

  lemma StepMeasured(hs: seq<Header>, i: nat)
    requires i < |hs| && AllFormed(hs) && Measure(hs, |hs|).Some? && hs[i].alloc
    ensures Measure(hs, i).Some? && Measured(hs, i).Some?
    ensures
      var s, total := MeasureOne(Measure(hs, i).value, hs[i], Measured(hs, i).value), Measure(hs, |hs|).value;
      && Measure(hs, i + 1) == Some(s)
      && s.readOnly <= total.readOnly && s.readWrite <= total.readWrite
  {
    MeasureGrows(hs, i, |hs|);
    MeasureGrows(hs, i + 1, |hs|);
  }

  /** One section of the second pass panics exactly if it is empty and begins at the very end of its mapping. */
  lemma StepPanicsIff(hs: seq<Header>, p: Progress, i: nat)
    requires i < |hs| && AllFormed(hs) && Plain(hs, i) && Measure(hs, |hs|).Some?
    requires hs[i].alloc && hs[i].kind != Null && Follow(hs, i).Some?
    requires Measure(hs, i).Some? && Behind(p, Measure(hs, i).value)
    requires |p.readOnly| == Measure(hs, |hs|).value.readOnly && |p.readWrite| == Measure(hs, |hs|).value.readWrite
    ensures
      var r := PlaceOne(Measure(hs, |hs|).value, p, i, hs[i], Follow(hs, i).value);
      && (r.Panicked? <==> Reaches(hs, Measure(hs, |hs|).value, p, i))
      && (r.Going? ==> Measure(hs, i + 1).Some? && Behind(r.p, Measure(hs, i + 1).value)
                       && |r.p.readOnly| == |p.readOnly| && |r.p.readWrite| == |p.readWrite|)
  {
    var h, s := Follow(hs, i).value, Measure(hs, i).value;
    StepMeasured(hs, i);
    GrowsOne(s, hs[i], Measured(hs, i).value);
    match Classify(hs[i]) {
      case IsData =>
        if NameAfter(hs[i].name, if h.kind == NoBits then 5 else 6) == Usable {
          SameSection(hs, i);
          PutFits(p.readWrite, p.rwOffset, s.readWrite, h);
          ImageSize(h);
        }
      case IsReadOnly(_) =>
        SameSection(hs, i);
        PutFits(p.readOnly, p.roOffset, s.readOnly, h);
        ImageSize(h);
      case IsTls =>
        if NameAfter(hs[i].name, if h.kind == NoBits then 6 else 7) == Usable {
          SameSection(hs, i);
          AlignUpMono(p.roOffset, s.readOnly, h.align);
        }
      case _ =>
    }
  }

  lemma GrowsOne(s: Sizes, flags: Header, h: Header)
    requires h.align > 0
    ensures s.readOnly <= MeasureOne(s, flags, h).readOnly && s.readWrite <= MeasureOne(s, flags, h).readWrite
  {
  }

  /** The second pass gets to section `i`, which is empty and begins at the very end of its mapping. */
  ghost predicate PanicsAt(hs: seq<Header>, start: Progress, i: nat)
    requires i < |hs| && AllFormed(hs) && Measure(hs, |hs|).Some?
  {
    var sizes := Measure(hs, |hs|).value;
    var r := Place(hs, sizes, start, i);
    r.Going? && hs[i].alloc && hs[i].kind != Null && Follow(hs, i).Some? && Reaches(hs, sizes, r.p, i)
  }

  /** Up to any section, the second pass stays behind the first, and it has panicked exactly if it came to such a section. */
  lemma {:induction false} PassesAgree(hs: seq<Header>, start: Progress, k: nat)
    requires k <= |hs| && AllFormed(hs) && AllPlain(hs) && Measure(hs, |hs|).Some? && Fresh(start, Measure(hs, |hs|).value)
    ensures
      var sizes := Measure(hs, |hs|).value;
      var r := Place(hs, sizes, start, k);
      && (r.Going? ==> Measure(hs, k).Some? && Behind(r.p, Measure(hs, k).value)
                       && |r.p.readOnly| == sizes.readOnly && |r.p.readWrite| == sizes.readWrite)
      && (r.Panicked? <==> exists i :: 0 <= i < k && PanicsAt(hs, start, i))
  {
    var sizes := Measure(hs, |hs|).value;
    if k > 0 {
      PassesAgree(hs, start, k - 1);
      var i, r := k - 1, Place(hs, sizes, start, k - 1);
      if r.Going? {
        MeasureGrows(hs, k, |hs|);
        assert Plain(hs, i);
        if hs[i].alloc && hs[i].kind != Null && Follow(hs, i).Some? {
          StepPanicsIff(hs, r.p, i);
        }
      }
      assert Place(hs, sizes, start, k).Panicked? <==> r.Panicked? || PanicsAt(hs, start, i);
    }
  }

  /** A section that is still empty after looking behind it. */
  ghost predicate EmptySection(hs: seq<Header>, i: nat)
    requires i < |hs|
  {
    hs[i].alloc && !hs[i].exec && Follow(hs, i).Some? && Follow(hs, i).value.size == 0
  }

  lemma PanicsAtEmpty(hs: seq<Header>, start: Progress, i: nat)
    requires i < |hs| && AllFormed(hs) && Measure(hs, |hs|).Some? && Plain(hs, i) && PanicsAt(hs, start, i)
    ensures EmptySection(hs, i)
  {
  }

  /** For a table without empty sections, loading succeeds or reports an error; it never panics. */
  lemma NeverPanics(hs: seq<Header>, start: Progress)
    requires AllFormed(hs) && AllPlain(hs) && Measure(hs, |hs|).Some? && Fresh(start, Measure(hs, |hs|).value)
    requires forall i :: 0 <= i < |hs| ==> !EmptySection(hs, i)
    ensures !Place(hs, Measure(hs, |hs|).value, start, |hs|).Panicked?
  {
    PassesAgree(hs, start, |hs|);
    if i :| 0 <= i < |hs| && PanicsAt(hs, start, i) {
      assert Plain(hs, i);
      PanicsAtEmpty(hs, start, i);
    }
  }

  /** What the loader copies into the executable mapping: the file up to its measured length. */
  ghost predicate FromFile(file: seq<nat>, h: Header) {
    h.kind.Stored() ==> h.offset + h.size <= |file| && h.bytes == file[h.offset..h.offset + h.size]
  }

  /** After a successful load every text section is in the executable mapping with its own bytes. */
  lemma TextLoaded(hs: seq<Header>, start: Progress, file: seq<nat>, n: nat)
    requires AllFormed(hs) && Measure(hs, |hs|).Some? && Fresh(start, Measure(hs, |hs|).value)
    requires Measure(hs, |hs|).value.exec <= |file| && Place(hs, Measure(hs, |hs|).value, start, |hs|).Going?
    requires
      var placed := Place(hs, Measure(hs, |hs|).value, start, |hs|).p.placed;
      n < |placed| && placed[n].target == Text && placed[n].section.kind.Stored() && FromFile(file, placed[n].section)
    ensures
      var x := Place(hs, Measure(hs, |hs|).value, start, |hs|).p.placed[n];
      var text := file[..Measure(hs, |hs|).value.exec];
      x.End() <= |text| && text[x.offset..x.End()] == x.section.bytes
  {
    LoadedLayout(hs, start, |hs|);
    var p := Place(hs, Measure(hs, |hs|).value, start, |hs|).p;
    assert Sound(Measure(hs, |hs|).value, p, p.placed[n]);
  }
}
