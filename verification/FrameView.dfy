/**
  The physical frame allocator as a value: which frames are marked used, the count of free
  frames, and the hint where the search starts.
 */
module FrameView {
  import opened Alignment
  import opened Sequences

  const WORD_BITS: nat := 64
  const BITMAP_LEN: nat := 4096
  const MAX_FRAMES: nat := WORD_BITS * BITMAP_LEN

  type View = seq<bool>

  /** How many frames are not marked used. */
  function CountFree(v: View): (n: nat)
    ensures n <= |v|
  {
    if v == [] then 0 else CountFree(v[..|v| - 1]) + (if v[|v| - 1] then 0 else 1)
  }

  /** The lowest free frame from `start` on, or the length. */
  function FirstFree(v: View, start: nat): (f: nat)
    requires start <= |v|
    ensures start <= f <= |v|
    ensures forall i :: start <= i < f ==> v[i]
    ensures f < |v| ==> !v[f]
    decreases |v| - start
  {
    if start == |v| || !v[start] then start else FirstFree(v, start + 1)
  }

  /** The search of `allocate`: from the hint's word to the end, then from the beginning. */
  function Search(v: View, start: nat): (f: nat)
    requires start <= |v|
  {
    var a := FirstFree(v, start);
    if a < |v| then a
    else
      var b := FirstFree(v, 0);
      if b < start then b else |v|
  }

  /** Wherever it starts, the search finds a frame if any is free: the lowest from there on, or else the lowest of all. */
  lemma SearchExact(v: View, start: nat)
    requires start <= |v|
    ensures
      var f := Search(v, start);
      if forall g :: 0 <= g < |v| ==> v[g] then f == |v|
      else
        && f < |v| && !v[f]
        && (forall g :: start <= g < |v| && !v[g] ==> start <= f <= g)
        && (forall g :: 0 <= g < |v| && !v[g] ==> f <= g || start <= f)
  {
  }

  datatype Frames = Frames(view: View, free: int, hint: nat)

  /** The counter is exact and nothing below the hint is free. */
  ghost predicate Inv(s: Frames) {
    && s.free == CountFree(s.view) && s.hint <= |s.view|
    && forall f :: 0 <= f < s.hint ==> s.view[f]
  }

  function WordStart(hint: nat): (start: nat) {
    hint / WORD_BITS * WORD_BITS
  }

  function Allocate(s: Frames): (r: (Frames, nat))
    requires s.hint <= |s.view|
  {
    if s.free == 0 then (s, |s.view|)
    else
      var f := Search(s.view, WordStart(s.hint));
      if f == |s.view| then (s, f) else (Frames(s.view[f := true], s.free - 1, f + 1), f)
  }

  datatype DeallocateResult = Done | InvalidFrame

  function Deallocate(s: Frames, f: nat): (r: (Frames, DeallocateResult)) {
    if f >= |s.view| then (s, InvalidFrame)
    else if !s.view[f] then (s, Done)
    else (Frames(s.view[f := false], s.free + 1, if f < s.hint then f else s.hint), Done)
  }

  function ReserveFrame(s: Frames, f: nat): (r: Frames)
    ensures 0 <= s.free ==> 0 <= r.free
  {
    if f < |s.view| && !s.view[f] then
      Frames(s.view[f := true], if s.free > 0 then s.free - 1 else s.free, s.hint)
    else s
  }

  /** Reserve `n` frames from `f` on. */
  function Reserve(s: Frames, f: nat, n: nat): (r: Frames) {
    if n == 0 then s else ReserveFrame(Reserve(s, f, n - 1), f + n - 1)
  }

  // --- Counting -------------------------------------------------------------------------------

  lemma {:induction false} CountUpdate(v: View, f: nat, used: bool)
    requires f < |v|
    ensures CountFree(v[f := used]) == CountFree(v) - (if v[f] then 0 else 1) + (if used then 0 else 1)
  {
    var w := v[f := used];
    if f == |v| - 1 {
      assert w[..|v| - 1] == v[..|v| - 1];
    } else {
      assert w[..|v| - 1] == v[..|v| - 1][f := used];
      CountUpdate(v[..|v| - 1], f, used);
    }
  }

  lemma {:induction false} CountZero(v: View)
    ensures CountFree(v) == 0 <==> forall f :: 0 <= f < |v| ==> v[f]
  {
    if v != [] {
      var p := v[..|v| - 1];
      CountZero(p);
      assert forall f :: 0 <= f < |p| ==> p[f] == v[f];
      assert v[|v| - 1] ==> (CountFree(v) == 0 <==> CountFree(p) == 0);
    }
  }

  // --- The hinted search is the global first-fit search ------------------------------------------

  /**
    Under the invariant the wrap-around never finds a frame, the result is the globally lowest
    free frame, and the allocator is out of memory exactly when no frame is free.
   */
  lemma AllocateLowest(s: Frames)
    requires Inv(s)
    ensures
      var (s', f) := Allocate(s);
      && Inv(s')
      && (f == |s.view| <==> forall g :: 0 <= g < |s.view| ==> s.view[g])
      && (f < |s.view| ==> !s.view[f] && (forall g :: 0 <= g < f ==> s.view[g])
                           && f == FirstFree(s.view, WordStart(s.hint)) && s'.view == s.view[f := true] && s'.hint == f + 1)
      && (f == |s.view| ==> s' == s)
  {
    CountZero(s.view);
    var start := WordStart(s.hint);
    assert start <= s.hint;
    var a := FirstFree(s.view, start);
    assert forall g :: 0 <= g < a ==> s.view[g];
    if s.free != 0 && a < |s.view| {
      CountUpdate(s.view, a, true);
    }
  }

  lemma DeallocateInv(s: Frames, f: nat)
    requires Inv(s)
    ensures Inv(Deallocate(s, f).0)
    ensures
      var (s', r) := Deallocate(s, f);
      && (r == InvalidFrame <==> f >= |s.view|) && |s'.view| == |s.view| && s'.hint == (if f < |s.view| && !s'.view[f] && f < s.hint then f else s.hint)
      && (forall g :: 0 <= g < |s.view| ==> (s'.view[g] <==> s.view[g] && g != f))
  {
    if f < |s.view| {
      CountUpdate(s.view, f, false);
    }
  }

  lemma ReserveFrameInv(s: Frames, f: nat)
    requires Inv(s)
    ensures Inv(ReserveFrame(s, f)) && |ReserveFrame(s, f).view| == |s.view|
  {
    if f < |s.view| && !s.view[f] {
      CountUpdate(s.view, f, true);
      CountZero(s.view);
    }
  }

  /** Reserving marks exactly the range, clipped to the bitmap, and keeps the invariant. */
  lemma {:induction false} ReserveExact(s: Frames, f: nat, n: nat)
    requires Inv(s)
    ensures Inv(Reserve(s, f, n)) && |Reserve(s, f, n).view| == |s.view| && Reserve(s, f, n).hint == s.hint
    ensures forall g :: 0 <= g < |s.view| ==> (Reserve(s, f, n).view[g] <==> s.view[g] || f <= g < f + n)
  {
    if n > 0 {
      ReserveExact(s, f, n - 1);
      ReserveFrameInv(Reserve(s, f, n - 1), f + n - 1);
    }
  }

  /** Giving back the frame just allocated restores which frames are free. */
  lemma DeallocateUndoes(s: Frames)
    requires Inv(s) && Allocate(s).1 < |s.view|
    ensures
      var (s', f) := Allocate(s);
      var s'' := Deallocate(s', f).0;
      s''.view == s.view && s''.free == s.free && Inv(s'')
  {
    AllocateLowest(s);
    var (s', f) := Allocate(s);
    DeallocateInv(s', f);
  }

  // --- Initialisation from the memory map --------------------------------------------------------

  datatype Region = Region(base: nat, size: nat, free: bool)

  /** The whole frames of a region: first frame up to, but not including, the last. */
  function FirstFrame(r: Region): (f: nat) {
    if r.base % PAGE_SIZE == 0 then r.base / PAGE_SIZE else r.base / PAGE_SIZE + 1
  }

  function LastFrame(r: Region): (f: nat) {
    (r.base + r.size) / PAGE_SIZE
  }

  /** The frames from `first` to `last`, without those beyond the bitmap. */
  function Clip(first: nat, last: nat): (s: seq<nat>)
    decreases last
  {
    if last <= first then []
    else Clip(first, last - 1) + (if last - 1 < MAX_FRAMES then [last - 1] else [])
  }

  function RegionFrames(r: Region): (s: seq<nat>) {
    if r.free then Clip(FirstFrame(r), LastFrame(r)) else []
  }

  /** Every frame `init` frees, in order, with repetitions. */
  function FreedFrames(regions: seq<Region>): (s: seq<nat>) {
    if regions == [] then [] else FreedFrames(regions[..|regions| - 1]) + RegionFrames(regions[|regions| - 1])
  }

  function AllUsed(): (v: View)
    ensures |v| == MAX_FRAMES && forall f :: 0 <= f < MAX_FRAMES ==> v[f]
  {
    seq(MAX_FRAMES, _ => true)
  }

  ghost predicate InBitmap(fs: seq<nat>) {
    forall i :: 0 <= i < |fs| ==> fs[i] < MAX_FRAMES
  }

  ghost function Cleared(fs: seq<nat>): (v: View)
    requires InBitmap(fs)
    ensures |v| == MAX_FRAMES
  {
    if fs == [] then AllUsed() else Cleared(fs[..|fs| - 1])[fs[|fs| - 1] := false]
  }

  lemma ClearedStep(done: seq<nat>, first: nat, frame: nat)
    requires first <= frame && InBitmap(done + Clip(first, frame))
    ensures
      var fs, fs' := done + Clip(first, frame), done + Clip(first, frame + 1);
      if frame < MAX_FRAMES then InBitmap(fs') && Cleared(fs') == Cleared(fs)[frame := false] && |fs'| == |fs| + 1
      else fs' == fs
  {
    var fs, fs' := done + Clip(first, frame), done + Clip(first, frame + 1);
    if frame < MAX_FRAMES {
      assert fs' == fs + [frame] && fs'[..|fs'| - 1] == fs;
    }
  }

  lemma {:induction false} ClearedAt(fs: seq<nat>, f: nat)
    requires f < MAX_FRAMES && InBitmap(fs)
    ensures Cleared(fs)[f] <==> f !in fs
  {
    if fs != [] {
      ClearedAt(fs[..|fs| - 1], f);
      assert fs == fs[..|fs| - 1] + [fs[|fs| - 1]];
    }
  }

  /** The counter that `init` leaves is exact if and only if no frame was freed twice. */
  lemma {:induction false} InitCountExact(fs: seq<nat>)
    requires InBitmap(fs)
    ensures CountFree(Cleared(fs)) <= |fs|
    ensures CountFree(Cleared(fs)) == |fs| <==> Distinct(fs)
  {
    if fs == [] {
      CountZero(AllUsed());
    } else {
      var p, f := fs[..|fs| - 1], fs[|fs| - 1];
      InitCountExact(p);
      ClearedAt(p, f);
      CountUpdate(Cleared(p), f, false);
      assert fs == p + [f];
      if f in p {
        var i :| 0 <= i < |p| && p[i] == f;
        assert !Differ(fs, i, |fs| - 1);
      } else if Distinct(p) {
        DistinctFresh(p, f);
      }
      if Distinct(fs) {
        DistinctParts(p, [f]);
      }
    }
  }

  lemma {:induction false} ClipExact(first: nat, last: nat)
    ensures forall x :: x in Clip(first, last) <==> first <= x < last && x < MAX_FRAMES
    ensures Distinct(Clip(first, last))
    decreases last
  {
    if first < last {
      ClipExact(first, last - 1);
      if last - 1 < MAX_FRAMES {
        DistinctFresh(Clip(first, last - 1), last - 1);
      } else {
        assert Clip(first, last) == Clip(first, last - 1);
      }
    }
  }

  /** The frame lies in the free region entirely. */
  predicate Contains(r: Region, f: nat) {
    r.free && r.base <= f * 4096 && (f + 1) * 4096 <= r.base + r.size
  }

  /** A region frees exactly the frames of the bitmap that lie in it entirely. */
  lemma FrameInside(r: Region, f: nat)
    ensures f in RegionFrames(r) <==> f < MAX_FRAMES && Contains(r, f)
  {
    ClipExact(FirstFrame(r), LastFrame(r));
  }

  ghost predicate DisjointRegions(regions: seq<Region>) {
    forall i, j {:trigger Apart(regions[i], regions[j])} :: 0 <= i < j < |regions| ==> Apart(regions[i], regions[j])
  }

  predicate Apart(r: Region, q: Region) {
    r.base + r.size <= q.base || q.base + q.size <= r.base
  }

  lemma {:induction false} FreedFrom(regions: seq<Region>, f: nat)
    requires f in FreedFrames(regions)
    ensures f < MAX_FRAMES && exists i :: 0 <= i < |regions| && f in RegionFrames(regions[i])
  {
    var n := |regions| - 1;
    if f in RegionFrames(regions[n]) {
      ClipExact(FirstFrame(regions[n]), LastFrame(regions[n]));
    } else {
      FreedFrom(regions[..n], f);
      var i :| 0 <= i < n && f in RegionFrames(regions[..n][i]);
      assert f in RegionFrames(regions[i]);
    }
  }

  /** Exactly the frames that lie in some free region are freed. */
  lemma {:induction false} FreedIff(regions: seq<Region>, f: nat)
    ensures f in FreedFrames(regions) <==> f < 0x4_0000 && exists i :: 0 <= i < |regions| && Contains(regions[i], f)
  {
    if regions != [] {
      var n := |regions| - 1;
      FreedIff(regions[..n], f);
      FrameInside(regions[n], f);
      assert forall i :: 0 <= i < n ==> regions[..n][i] == regions[i];
      if i :| 0 <= i < |regions| && Contains(regions[i], f) {
        assert i < n ==> Contains(regions[..n][i], f);
      }
    }
  }

  /** Regions that share no byte free no frame twice. */
  lemma {:induction false} DisjointNoRepeats(regions: seq<Region>)
    requires DisjointRegions(regions)
    ensures Distinct(FreedFrames(regions))
  {
    if regions != [] {
      var n := |regions| - 1;
      var p, last := regions[..n], regions[n];
      forall i, j | 0 <= i < j < n ensures Apart(p[i], p[j]) {
        assert Apart(regions[i], regions[j]);
      }
      DisjointNoRepeats(p);
      ClipExact(FirstFrame(last), LastFrame(last));
      forall f | f in FreedFrames(p) && f in RegionFrames(last) ensures false {
        FreedFrom(p, f);
        var i :| 0 <= i < n && f in RegionFrames(p[i]);
        assert Apart(regions[i], regions[n]);
        FrameInside(p[i], f);
        FrameInside(last, f);
      }
      DistinctAppend(FreedFrames(p), RegionFrames(last));
    }
  }

  /** After `init` on disjoint regions the invariant holds, with exactly their whole frames free. */
  lemma InitInv(regions: seq<Region>)
    requires DisjointRegions(regions)
    ensures
      var fs := FreedFrames(regions);
      && InBitmap(fs) && Inv(Frames(Cleared(fs), |fs|, 0))
      && forall f: nat :: f < MAX_FRAMES ==> (!Cleared(fs)[f] <==> exists i :: 0 <= i < |regions| && Contains(regions[i], f))
  {
    var fs := FreedFrames(regions);
    forall i | 0 <= i < |fs| ensures fs[i] < MAX_FRAMES {
      assert fs[i] in fs;
      FreedFrom(regions, fs[i]);
    }
    DisjointNoRepeats(regions);
    InitCountExact(fs);
    forall f: nat | f < MAX_FRAMES ensures !Cleared(fs)[f] <==> exists i :: 0 <= i < |regions| && Contains(regions[i], f) {
      ClearedAt(fs, f);
      FreedIff(regions, f);
    }
  }

  // --- Runs ------------------------------------------------------------------------------------------

  datatype Call = ReserveCall(first: nat, count: nat) | AllocateCall | DeallocateCall(frame: nat)

  function Step(s: Frames, call: Call): (r: Frames)
    requires s.hint <= |s.view|
  {
    match call
    case ReserveCall(first, count) => Reserve(s, first, count)
    case AllocateCall => Allocate(s).0
    case DeallocateCall(frame) => Deallocate(s, frame).0
  }

  lemma StepInv(s: Frames, call: Call)
    requires Inv(s)
    ensures Inv(Step(s, call)) && |Step(s, call).view| == |s.view|
  {
    match call
    case ReserveCall(first, count) => ReserveExact(s, first, count);
    case AllocateCall => AllocateLowest(s);
    case DeallocateCall(frame) => DeallocateInv(s, frame);
  }

  ghost function Run(s: Frames, calls: seq<Call>): (r: Frames)
    requires Inv(s)
    decreases |calls|
  {
    if calls == [] then s
    else
      StepInv(s, calls[0]);
      Run(Step(s, calls[0]), calls[1..])
  }

  /**
    After `init` on disjoint regions and any sequence of reserving, allocating and deallocating,
    the counter is exact, nothing below the hint is free, and the next allocation returns the
    lowest free frame of all, or fails exactly if there is none.
   */
  lemma {:induction false} RunInv(s: Frames, calls: seq<Call>)
    requires Inv(s)
    ensures Inv(Run(s, calls)) && |Run(s, calls).view| == |s.view|
    ensures
      var v, f := Run(s, calls).view, Allocate(Run(s, calls)).1;
      && (f == |v| <==> forall g :: 0 <= g < |v| ==> v[g])
      && (f < |v| ==> !v[f] && forall g :: 0 <= g < f ==> v[g])
    decreases |calls|
  {
    if calls == [] {
      AllocateLowest(s);
    } else {
      StepInv(s, calls[0]);
      RunInv(Step(s, calls[0]), calls[1..]);
    }
  }
}
