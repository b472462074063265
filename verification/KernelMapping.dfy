/**
  Kernel mappings: windows of pages handed out by a bump offset and extended in place, and the
  process heaps built on them.  Page tables appear as the flat maps they refine.  Kernel pages
  are counted from the base of the mapping region, heap pages from the base of the user heap.
 */
module KernelMapping {
  import opened Alignment
  import opened Options

  type PageMap = map<nat, nat>

  datatype Window = Window(start: nat, end: nat) {
    function Len(): (n: int) { end - start }
    predicate Has(p: int) { start <= p < end }
  }

  /**
    Map consecutive pages.  Each element gives the frame for one page, or nothing if a table
    frame cannot be had for it.  `map_pages` passes over mapped pages, `map_pages_untracked`
    fails at the first one.
   */
  function MapRange(m: PageMap, start: nat, frames: seq<Option<nat>>, skip: bool): (r: (PageMap, bool))
    decreases |frames|
  {
    if frames == [] then (m, true)
    else if start in m then
      (if skip then MapRange(m, start + 1, frames[1..], skip) else (m, false))
    else if frames[0].None? then (m, false)
    else MapRange(m[start := frames[0].value], start + 1, frames[1..], skip)
  }

  /** Map `user` pages from `u` on to the frames of the kernel pages from `k` on. */
  function MapPairs(user: PageMap, kernel: PageMap, u: nat, k: nat, granted: seq<bool>): (r: (PageMap, bool))
    requires AllIn(kernel, k, |granted|)
    decreases |granted|
  {
    if granted == [] then (user, true)
    else if u in user || !granted[0] then (user, false)
    else MapPairs(user[u := kernel[k]], kernel, u + 1, k + 1, granted[1..])
  }

  /** `m'` is `m` with pages added, all of them among the `n` from `lo` on. */
  ghost predicate Grows(m: PageMap, m': PageMap, lo: nat, n: nat) {
    && (forall p: nat :: p in m ==> p in m' && m'[p] == m[p])
    && (forall p: nat :: p in m' ==> p in m || lo <= p < lo + n)
  }

  ghost predicate AllIn(m: PageMap, lo: nat, n: nat) {
    forall p: nat :: lo <= p < lo + n ==> p in m
  }

  ghost predicate NoneIn(m: PageMap, lo: nat, n: nat) {
    forall p: nat :: lo <= p < lo + n ==> p !in m
  }

  lemma {:induction false} MapRangeExact(m: PageMap, start: nat, frames: seq<Option<nat>>, skip: bool)
    ensures
      var (m', ok) := MapRange(m, start, frames, skip);
      && Grows(m, m', start, |frames|)
      && (ok ==> AllIn(m', start, |frames|))
      && (ok && !skip ==> NoneIn(m, start, |frames|))
    decreases |frames|
  {
    if frames != [] {
      if start in m {
        if skip {
          MapRangeExact(m, start + 1, frames[1..], skip);
        }
      } else if frames[0].Some? {
        var m1 := m[start := frames[0].value];
        MapRangeExact(m1, start + 1, frames[1..], skip);
        assert start in m1;
      }
    }
  }

  /** Extending in place works, frames permitting, exactly when the pages behind are unmapped. */
  lemma {:induction false} UntrackedSucceedsIff(m: PageMap, start: nat, frames: seq<Option<nat>>)
    requires forall i :: 0 <= i < |frames| ==> frames[i].Some?
    ensures MapRange(m, start, frames, false).1 <==> NoneIn(m, start, |frames|)
    decreases |frames|
  {
    if frames != [] && start !in m {
      var m1 := m[start := frames[0].value];
      UntrackedSucceedsIff(m1, start + 1, frames[1..]);
      assert forall p: nat :: start + 1 <= p < start + |frames| ==> (p in m1 <==> p in m);
    }
  }

  /** Page `i` of the range is not in the way and has a frame, or it is mapped and passed over. */
  predicate PageFits(m: PageMap, start: nat, frames: seq<Option<nat>>, skip: bool, i: nat)
    requires i < |frames|
  {
    if start + i in m then skip else frames[i].Some?
  }

  /** A range is mapped completely exactly if each page of it fits. */
  lemma {:induction false} MapRangeSucceedsIff(m: PageMap, start: nat, frames: seq<Option<nat>>, skip: bool)
    ensures MapRange(m, start, frames, skip).1 <==>
            forall i: nat {:trigger PageFits(m, start, frames, skip, i)} :: i < |frames| ==> PageFits(m, start, frames, skip, i)
    decreases |frames|
  {
    if frames == [] {
    } else if !PageFits(m, start, frames, skip, 0) {
    } else {
      var m1 := if start in m then m else m[start := frames[0].value];
      MapRangeSucceedsIff(m1, start + 1, frames[1..], skip);
      forall i: nat | 0 < i < |frames|
        ensures PageFits(m, start, frames, skip, i) <==> PageFits(m1, start + 1, frames[1..], skip, i - 1)
      {
        assert start + 1 + (i - 1) == start + i;
      }
      var next, rest := start + 1, frames[1..];
      if forall i: nat {:trigger PageFits(m, start, frames, skip, i)} :: i < |frames| ==> PageFits(m, start, frames, skip, i) {
        forall i: nat | i < |rest| ensures PageFits(m1, next, rest, skip, i) {
          assert PageFits(m, start, frames, skip, i + 1) <==> PageFits(m1, next, rest, skip, (i + 1) - 1);
        }
      }
    }
  }

  /** Each page that was not mapped has the frame listed for it. */
  lemma {:induction false} MapRangeFrames(m: PageMap, start: nat, frames: seq<Option<nat>>, skip: bool, i: nat)
    requires MapRange(m, start, frames, skip).1 && i < |frames| && start + i !in m
    ensures
      var m' := MapRange(m, start, frames, skip).0;
      start + i in m' && Some(m'[start + i]) == frames[i]
    decreases |frames|
  {
    var m1 := if start in m then m else m[start := frames[0].value];
    if i == 0 {
      MapRangeExact(m1, start + 1, frames[1..], skip);
      assert start in m1;
    } else {
      assert start + 1 + (i - 1) !in m1;
      MapRangeFrames(m1, start + 1, frames[1..], skip, i - 1);
    }
  }

  predicate PairFits(user: PageMap, u: nat, granted: seq<bool>, i: nat)
    requires i < |granted|
  {
    granted[i] && u + i !in user
  }

  lemma {:induction false} MapPairsSucceedsIff(user: PageMap, kernel: PageMap, u: nat, k: nat, granted: seq<bool>)
    requires AllIn(kernel, k, |granted|)
    ensures MapPairs(user, kernel, u, k, granted).1 <==>
            forall i: nat {:trigger PairFits(user, u, granted, i)} :: i < |granted| ==> PairFits(user, u, granted, i)
    decreases |granted|
  {
    if granted == [] {
    } else if !PairFits(user, u, granted, 0) {
    } else {
      var user1 := user[u := kernel[k]];
      MapPairsSucceedsIff(user1, kernel, u + 1, k + 1, granted[1..]);
      forall i: nat | 0 < i < |granted| ensures PairFits(user, u, granted, i) <==> PairFits(user1, u + 1, granted[1..], i - 1) {
        assert u + 1 + (i - 1) == u + i;
      }
      var next, rest := u + 1, granted[1..];
      if forall i: nat {:trigger PairFits(user, u, granted, i)} :: i < |granted| ==> PairFits(user, u, granted, i) {
        forall i: nat | i < |rest| ensures PairFits(user1, next, rest, i) {
          assert PairFits(user, u, granted, i + 1) <==> PairFits(user1, next, rest, (i + 1) - 1);
        }
      }
    }
  }

  lemma {:induction false} MapPairsExact(user: PageMap, kernel: PageMap, u: nat, k: nat, granted: seq<bool>)
    requires AllIn(kernel, k, |granted|)
    ensures
      var (user', ok) := MapPairs(user, kernel, u, k, granted);
      && Grows(user, user', u, |granted|)
      && (ok ==> Shares(user', kernel, u, k, |granted|))
    decreases |granted|
  {
    if granted != [] && u !in user && granted[0] {
      var user1 := user[u := kernel[k]];
      MapPairsExact(user1, kernel, u + 1, k + 1, granted[1..]);
      var (user', ok) := MapPairs(user, kernel, u, k, granted);
      assert u in user1;
    }
  }

  /** The `n` user pages from `u` on have the frames of the kernel pages from `k` on. */
  ghost predicate Shares(user: PageMap, kernel: PageMap, u: nat, k: nat, n: nat) {
    forall p: nat {:trigger SharesAt(user, kernel, u, k, p)} {:trigger user[p]} {:trigger p in user} ::
      u <= p < u + n ==> SharesAt(user, kernel, u, k, p)
  }

  ghost predicate SharesAt(user: PageMap, kernel: PageMap, u: nat, k: nat, p: nat)
    requires u <= p
  {
    p in user && k + (p - u) in kernel && user[p] == kernel[k + (p - u)]
  }

  // --- The kernel's mappings and the heaps of its processes -----------------------------------

  datatype Proc = Proc(user: PageMap, heap: Option<nat>)

  datatype State = State(kernel: PageMap, offset: nat, windows: map<nat, Window>, procs: map<nat, Proc>)

  datatype Op =
    | Spawn(pid: nat)
    | New(id: nat, frames: seq<Option<nat>>)
    | HeapFault(pid: nat, page: nat, id: nat, frames: seq<Option<nat>>, granted: seq<bool>)

  /** A call the kernel can get into: fresh names, and a fault only where the heap is not mapped. */
  ghost predicate Enabled(s: State, op: Op) {
    match op
    case Spawn(pid) => pid !in s.procs
    case New(id, _) => id !in s.windows
    case HeapFault(pid, page, id, frames, granted) =>
      && pid in s.procs && id !in s.windows && page !in s.procs[pid].user
      && |frames| == |granted| == page + 1 - HeapLen(s, pid)
  }

  function HeapLen(s: State, pid: nat): (n: int)
    requires pid in s.procs
  {
    match s.procs[pid].heap
    case None => 0
    case Some(id) => if id in s.windows then s.windows[id].Len() else 0
  }

  /** `KernelMapping::new`; a failure of `map_pages` stops the kernel. */
  function NewMapping(s: State, id: nat, frames: seq<Option<nat>>): (r: (State, bool)) {
    var (kernel, ok) := MapRange(s.kernel, s.offset, frames, true);
    if !ok then (s, false)
    else (State(kernel, s.offset + |frames|, s.windows[id := Window(s.offset, s.offset + |frames|)], s.procs), true)
  }

  /** `KernelMapping::extend`: the offset moves on even if nothing else does. */
  function Extend(s: State, pid: nat, id: nat, frames: seq<Option<nat>>, granted: seq<bool>): (r: (State, bool))
    requires pid in s.procs && id in s.windows && |frames| == |granted| && 0 <= s.windows[id].Len()
  {
    var w := s.windows[id];
    var (kernel, ok) := MapRange(s.kernel, w.end, frames, false);
    MapRangeExact(s.kernel, w.end, frames, false);
    if !ok then (State(kernel, s.offset + |frames|, s.windows, s.procs), false)
    else ExtendUser(s, kernel, pid, id, granted)
  }

  /** The second half of `extend`: the new kernel pages appear behind the user's heap. */
  function ExtendUser(s: State, kernel: PageMap, pid: nat, id: nat, granted: seq<bool>): (r: (State, bool))
    requires pid in s.procs && id in s.windows && 0 <= s.windows[id].Len() && AllIn(kernel, s.windows[id].end, |granted|)
  {
    var w, n := s.windows[id], |granted|;
    var (user, ok) := MapPairs(s.procs[pid].user, kernel, w.Len(), w.end, granted);
    if !ok then (State(kernel, s.offset + n, s.windows, s.procs), false)
    else (State(kernel, s.offset + n, s.windows[id := Window(w.start, w.end + n)], s.procs[pid := Proc(user, s.procs[pid].heap)]), true)
  }

  function Kill(s: State, pid: nat): (r: State) {
    State(s.kernel, s.offset, s.windows, s.procs - {pid})
  }

  /** The heap branch of the page fault handler: create or extend, and kill on failure. */
  function Fault(s: State, pid: nat, page: nat, id: nat, frames: seq<Option<nat>>, granted: seq<bool>): (r: State)
    requires Inv(s) && Enabled(s, HeapFault(pid, page, id, frames, granted))
  {
    match s.procs[pid].heap
    case Some(held) =>
      assert HeapOk(s, pid);
      assert WindowOk(s, held);
      var (s', ok) := Extend(s, pid, held, frames, granted);
      if ok then s' else Kill(s', pid)
    case None =>
      var (s1, ok) := NewMapping(s, id, frames);
      MapRangeExact(s.kernel, s.offset, frames, true);
      if !ok then s
      else
        var (user, okay) := MapPairs(s.procs[pid].user, s1.kernel, 0, s.offset, granted);
        if okay then State(s1.kernel, s1.offset, s1.windows, s1.procs[pid := Proc(user, Some(id))])
        else Kill(s1, pid)
  }

  function Step(s: State, op: Op): (r: State)
    requires Inv(s) && Enabled(s, op)
  {
    match op
    case Spawn(pid) => State(s.kernel, s.offset, s.windows, s.procs[pid := Proc(map[], None)])
    case New(id, frames) => NewMapping(s, id, frames).0
    case HeapFault(pid, page, id, frames, granted) => Fault(s, pid, page, id, frames, granted)
  }

  // --- The invariant ------------------------------------------------------------------------------

  /** A window lies below the offset and all of it is mapped. */
  ghost predicate WindowOk(s: State, id: nat) {
    && id in s.windows && s.windows[id].start <= s.windows[id].end <= s.offset
    && forall p: nat :: s.windows[id].Has(p) ==> p in s.kernel
  }

  ghost predicate Separate(w: Window, v: Window) {
    w.end <= v.start || v.end <= w.start || w.start == w.end || v.start == v.end
  }

  /** The user heap is a prefix of pages that share the frames of the kernel window. */
  ghost predicate HeapOk(s: State, pid: nat)
    requires pid in s.procs
  {
    var proc := s.procs[pid];
    match proc.heap
    case None => proc.user == map[]
    case Some(id) =>
      && id in s.windows && 0 <= s.windows[id].Len()
      && (forall i: nat :: i in proc.user ==> i < s.windows[id].Len())
      && Shares(proc.user, s.kernel, 0, s.windows[id].start, s.windows[id].Len())
  }

  ghost predicate Inv(s: State) {
    && (forall p: nat :: p in s.kernel ==> p < s.offset)
    && (forall id {:trigger WindowOk(s, id)} :: id in s.windows ==> WindowOk(s, id))
    && (forall i, j {:trigger Separate(s.windows[i], s.windows[j])} ::
          i in s.windows && j in s.windows && i != j ==> Separate(s.windows[i], s.windows[j]))
    && (forall pid {:trigger HeapOk(s, pid)} :: pid in s.procs ==> HeapOk(s, pid))
    && (forall a, b {:trigger s.procs[a], s.procs[b]} :: a in s.procs && b in s.procs && a != b && s.procs[a].heap.Some? ==>
          s.procs[a].heap != s.procs[b].heap)
  }

  lemma NewMappingInv(s: State, id: nat, frames: seq<Option<nat>>)
    requires Inv(s) && id !in s.windows
    ensures Inv(NewMapping(s, id, frames).0)
  {
    MapRangeExact(s.kernel, s.offset, frames, true);
    var (s', ok) := NewMapping(s, id, frames);
    if ok {
      forall i | i in s'.windows ensures WindowOk(s', i) {
        if i != id {
          assert WindowOk(s, i);
        }
      }
      forall i, j | i in s'.windows && j in s'.windows && i != j ensures Separate(s'.windows[i], s'.windows[j]) {
        if i == id {
          assert WindowOk(s, j);
        } else if j == id {
          assert WindowOk(s, i);
        } else {
          assert Separate(s.windows[i], s.windows[j]);
        }
      }
      forall pid | pid in s'.procs ensures HeapOk(s', pid) {
        assert HeapOk(s, pid);
        if s.procs[pid].heap.Some? {
          assert WindowOk(s, s.procs[pid].heap.value);
        }
      }
    }
  }

  /** Growing the kernel's map and the offset alone disturbs nothing. */
  lemma GrownInv(s: State, kernel: PageMap, lo: nat, n: nat)
    requires Inv(s) && lo <= s.offset && Grows(s.kernel, kernel, lo, n)
    ensures Inv(State(kernel, s.offset + n, s.windows, s.procs))
  {
    var s' := State(kernel, s.offset + n, s.windows, s.procs);
    forall i | i in s'.windows ensures WindowOk(s', i) {
      assert WindowOk(s, i);
    }
    forall i, j | i in s'.windows && j in s'.windows && i != j ensures Separate(s'.windows[i], s'.windows[j]) {
      assert Separate(s.windows[i], s.windows[j]);
    }
    forall pid | pid in s'.procs ensures HeapOk(s', pid) {
      assert HeapOk(s, pid);
    }
  }

  /** Moving the end of a window over pages nobody had keeps the windows separate. */
  lemma ExtendedInv(s: State, kernel: PageMap, pid: nat, id: nat, n: nat, user: PageMap)
    requires Inv(s) && pid in s.procs && s.procs[pid].heap == Some(id) && id in s.windows
    requires 0 <= s.windows[id].Len() && Grows(s.kernel, kernel, s.windows[id].end, n)
    requires AllIn(kernel, s.windows[id].end, n) && NoneIn(s.kernel, s.windows[id].end, n)
    requires Grows(s.procs[pid].user, user, s.windows[id].Len(), n)
    requires Shares(user, kernel, s.windows[id].Len(), s.windows[id].end, n)
    ensures Inv(State(kernel, s.offset + n, s.windows[id := Window(s.windows[id].start, s.windows[id].end + n)],
                      s.procs[pid := Proc(user, Some(id))]))
  {
    var w := s.windows[id];
    var s' := State(kernel, s.offset + n, s.windows[id := Window(w.start, w.end + n)], s.procs[pid := Proc(user, Some(id))]);
    assert WindowOk(s, id);
    forall i | i in s'.windows ensures WindowOk(s', i) {
      assert WindowOk(s, i);
    }
    WindowsSeparate(s, id, n);
    assert HeapOk(s, pid);
    SharesJoin(s.procs[pid].user, user, s.kernel, kernel, w, n);
    forall q | q in s'.procs && q != pid ensures HeapOk(s', q) {
      assert HeapOk(s, q);
      if s.procs[q].heap.Some? {
        assert s.procs[q].heap != s.procs[pid].heap;
      }
    }
    assert HeapOk(s', pid);
  }

  lemma WindowsSeparate(s: State, id: nat, n: nat)
    requires Inv(s) && id in s.windows && NoneIn(s.kernel, s.windows[id].end, n)
    ensures
      var windows := s.windows[id := Window(s.windows[id].start, s.windows[id].end + n)];
      forall i, j {:trigger Separate(windows[i], windows[j])} ::
        i in windows && j in windows && i != j ==> Separate(windows[i], windows[j])
  {
    var w := s.windows[id];
    var windows := s.windows[id := Window(w.start, w.end + n)];
    assert WindowOk(s, id);
    forall i, j | i in windows && j in windows && i != j ensures Separate(windows[i], windows[j]) {
      assert Separate(s.windows[i], s.windows[j]) && Separate(s.windows[j], s.windows[i]);
      if i == id {
        NeighbourClear(s, w, n, j);
      } else if j == id {
        NeighbourClear(s, w, n, i);
      }
    }
  }

  lemma SharesJoin(user0: PageMap, user: PageMap, kernel0: PageMap, kernel: PageMap, w: Window, n: nat)
    requires 0 <= w.Len() && Shares(user0, kernel0, 0, w.start, w.Len()) && Shares(user, kernel, w.Len(), w.end, n)
    requires forall p: nat :: p in kernel0 ==> p in kernel && kernel[p] == kernel0[p]
    requires forall p: nat :: p in user0 ==> p in user && user[p] == user0[p]
    ensures Shares(user, kernel, 0, w.start, w.Len() + n)
  {
    forall p: nat | 0 <= p < 0 + (w.Len() + n) ensures SharesAt(user, kernel, 0, w.start, p) {
      if p < w.Len() {
        assert SharesAt(user0, kernel0, 0, w.start, p);
      } else {
        assert SharesAt(user, kernel, w.Len(), w.end, p);
      }
    }
  }

  /** Unmapped pages behind a window belong to no other window. */
  lemma NeighbourClear(s: State, w: Window, n: nat, j: nat)
    requires Inv(s) && j in s.windows && Separate(w, s.windows[j]) && w.start <= w.end
    requires NoneIn(s.kernel, w.end, n)
    ensures Separate(Window(w.start, w.end + n), s.windows[j])
  {
    assert WindowOk(s, j);
    var v := s.windows[j];
    var x := if v.start < w.end then w.end else v.start;
    assert v.Has(x) ==> x in s.kernel;
  }

  /** What `extend` does, said without the loops behind it. */
  ghost predicate Extended(s: State, pid: nat, id: nat, n: nat, s': State, ok: bool)
    requires pid in s.procs && id in s.windows && 0 <= s.windows[id].Len()
  {
    var w := s.windows[id];
    && s'.offset == s.offset + n
    && Grows(s.kernel, s'.kernel, w.end, n)
    && (!ok ==> s'.windows == s.windows && s'.procs == s.procs)
    && (ok ==>
          && pid in s'.procs && s'.windows == s.windows[id := Window(w.start, w.end + n)]
          && s'.procs == s.procs[pid := Proc(s'.procs[pid].user, s.procs[pid].heap)]
          && AllIn(s'.kernel, w.end, n) && NoneIn(s.kernel, w.end, n)
          && Grows(s.procs[pid].user, s'.procs[pid].user, w.Len(), n)
          && Shares(s'.procs[pid].user, s'.kernel, w.Len(), w.end, n))
  }

  lemma ExtendExact(s: State, pid: nat, id: nat, frames: seq<Option<nat>>, granted: seq<bool>)
    requires pid in s.procs && id in s.windows && |frames| == |granted| && 0 <= s.windows[id].Len()
    ensures
      var (s', ok) := Extend(s, pid, id, frames, granted);
      Extended(s, pid, id, |frames|, s', ok)
  {
    var w := s.windows[id];
    MapRangeExact(s.kernel, w.end, frames, false);
    var (kernel, ok) := MapRange(s.kernel, w.end, frames, false);
    if ok {
      ExtendUserExact(s, kernel, pid, id, granted);
    }
  }

  lemma ExtendUserExact(s: State, kernel: PageMap, pid: nat, id: nat, granted: seq<bool>)
    requires pid in s.procs && id in s.windows && 0 <= s.windows[id].Len()
    requires
      var end, n := s.windows[id].end, |granted|;
      Grows(s.kernel, kernel, end, n) && AllIn(kernel, end, n) && NoneIn(s.kernel, end, n)
    ensures
      var (s', ok) := ExtendUser(s, kernel, pid, id, granted);
      Extended(s, pid, id, |granted|, s', ok)
  {
    MapPairsExact(s.procs[pid].user, kernel, s.windows[id].Len(), s.windows[id].end, granted);
  }

  lemma ExtendInv(s: State, pid: nat, id: nat, n: nat, s': State, ok: bool)
    requires Inv(s) && pid in s.procs && s.procs[pid].heap == Some(id) && id in s.windows && 0 <= s.windows[id].Len()
    requires Extended(s, pid, id, n, s', ok)
    ensures Inv(s')
  {
    assert WindowOk(s, id);
    if ok {
      ExtendedInv(s, s'.kernel, pid, id, n, s'.procs[pid].user);
    } else {
      assert s' == State(s'.kernel, s.offset + n, s.windows, s.procs);
      GrownInv(s, s'.kernel, s.windows[id].end, n);
    }
  }

  lemma KillInv(s: State, pid: nat)
    requires Inv(s)
    ensures Inv(Kill(s, pid))
  {
    var s' := Kill(s, pid);
    forall i | i in s'.windows ensures WindowOk(s', i) {
      assert WindowOk(s, i);
    }
    forall i, j | i in s'.windows && j in s'.windows && i != j ensures Separate(s'.windows[i], s'.windows[j]) {
      assert Separate(s.windows[i], s.windows[j]);
    }
    forall q | q in s'.procs ensures HeapOk(s', q) {
      assert HeapOk(s, q);
    }
  }

  /** Handing a process its first heap window. */
  lemma FirstHeapInv(s: State, pid: nat, id: nat, user: PageMap)
    requires Inv(s) && pid in s.procs && id in s.windows && s.procs[pid].heap == None
    requires forall q {:trigger s.procs[q]} :: q in s.procs ==> s.procs[q].heap != Some(id)
    requires 0 <= s.windows[id].Len() && Shares(user, s.kernel, 0, s.windows[id].start, s.windows[id].Len())
    requires forall i: nat :: i in user ==> i < s.windows[id].Len()
    ensures Inv(State(s.kernel, s.offset, s.windows, s.procs[pid := Proc(user, Some(id))]))
  {
    var s' := State(s.kernel, s.offset, s.windows, s.procs[pid := Proc(user, Some(id))]);
    forall i | i in s'.windows ensures WindowOk(s', i) {
      assert WindowOk(s, i);
    }
    forall i, j | i in s'.windows && j in s'.windows && i != j ensures Separate(s'.windows[i], s'.windows[j]) {
      assert Separate(s.windows[i], s.windows[j]);
    }
    forall q | q in s'.procs ensures HeapOk(s', q) {
      if q != pid {
        assert HeapOk(s, q);
      }
    }
    forall a, b | a in s'.procs && b in s'.procs && a != b && s'.procs[a].heap.Some? ensures s'.procs[a].heap != s'.procs[b].heap {
      assert a in s.procs && b in s.procs;
      assert s.procs[a].heap != Some(id) && s.procs[b].heap != Some(id);
    }
  }

  lemma FaultInv(s: State, pid: nat, page: nat, id: nat, frames: seq<Option<nat>>, granted: seq<bool>)
    requires Inv(s) && Enabled(s, HeapFault(pid, page, id, frames, granted))
    ensures Inv(Fault(s, pid, page, id, frames, granted))
  {
    assert HeapOk(s, pid);
    match s.procs[pid].heap
    case Some(held) =>
      assert WindowOk(s, held);
      var (s', ok) := Extend(s, pid, held, frames, granted);
      ExtendExact(s, pid, held, frames, granted);
      ExtendInv(s, pid, held, |frames|, s', ok);
      KillInv(s', pid);
    case None =>
      NewMappingInv(s, id, frames);
      MapRangeExact(s.kernel, s.offset, frames, true);
      var (s1, ok) := NewMapping(s, id, frames);
      if ok {
        MapPairsExact(s.procs[pid].user, s1.kernel, 0, s.offset, granted);
        var (user, okay) := MapPairs(s.procs[pid].user, s1.kernel, 0, s.offset, granted);
        if okay {
          forall q | q in s1.procs ensures s1.procs[q].heap != Some(id) {
            assert HeapOk(s, q);
          }
          FirstHeapInv(s1, pid, id, user);
        } else {
          KillInv(s1, pid);
        }
      }
  }

  lemma StepInv(s: State, op: Op)
    requires Inv(s) && Enabled(s, op)
    ensures Inv(Step(s, op))
  {
    match op
    case Spawn(pid) =>
      var s' := Step(s, op);
      forall i | i in s'.windows ensures WindowOk(s', i) {
        assert WindowOk(s, i);
      }
      forall i, j | i in s'.windows && j in s'.windows && i != j ensures Separate(s'.windows[i], s'.windows[j]) {
        assert Separate(s.windows[i], s.windows[j]);
      }
      forall q | q in s'.procs ensures HeapOk(s', q) {
        if q != pid {
          assert HeapOk(s, q);
        }
      }
    case New(id, frames) => NewMappingInv(s, id, frames);
    case HeapFault(pid, page, id, frames, granted) => FaultInv(s, pid, page, id, frames, granted);
  }

  /**
    The states a kernel goes through as calls are made, each possible when it is made; a step
    is only defined where the invariant holds, which `Run` itself shows to be everywhere.
   */
  ghost predicate Run(s: State, ops: seq<Op>, t: State)
    requires Inv(s)
    decreases |ops|
  {
    if ops == [] then t == s
    else Enabled(s, ops[0]) && (StepInv(s, ops[0]); Run(Step(s, ops[0]), ops[1..], t))
  }

  /**
    Over every history of new mappings, extensions that work, extensions that fail at any
    point, and heap faults: windows stay disjoint and below the offset, and every process sees
    its heap window's frames at one contiguous prefix of its heap.
   */
  lemma {:induction false} RunInv(s: State, ops: seq<Op>, t: State)
    requires Inv(s) && Run(s, ops, t)
    ensures Inv(t)
    decreases |ops|
  {
    if ops != [] {
      StepInv(s, ops[0]);
      RunInv(Step(s, ops[0]), ops[1..], t);
    }
  }

  /** No mapping, no process. */
  const EMPTY := State(map[], 0, map[], map[])

  /** The same of every history from boot. */
  lemma BootRunInv(ops: seq<Op>, t: State)
    requires Run(EMPTY, ops, t)
    ensures Inv(t)
  {
    assert Inv(EMPTY);
    RunInv(EMPTY, ops, t);
  }

  /** The fault handler's assertion that there is something to extend by holds exactly for unmapped pages. */
  lemma FaultExtendsIff(s: State, pid: nat, page: nat)
    requires Inv(s) && pid in s.procs
    ensures page !in s.procs[pid].user <==> page + 1 - HeapLen(s, pid) > 0
  {
    assert HeapOk(s, pid);
  }

  /** A successful fault makes the faulting page accessible. */
  lemma FaultMapsPage(s: State, pid: nat, page: nat, id: nat, frames: seq<Option<nat>>, granted: seq<bool>)
    requires Inv(s) && Enabled(s, HeapFault(pid, page, id, frames, granted))
    requires pid in Fault(s, pid, page, id, frames, granted).procs && Fault(s, pid, page, id, frames, granted) != s
    ensures page in Fault(s, pid, page, id, frames, granted).procs[pid].user
    ensures HeapLen(Fault(s, pid, page, id, frames, granted), pid) == page + 1
  {
    FaultInv(s, pid, page, id, frames, granted);
    var s' := Fault(s, pid, page, id, frames, granted);
    assert HeapOk(s, pid) && HeapOk(s', pid);
    if s.procs[pid].heap.Some? {
      assert WindowOk(s, s.procs[pid].heap.value);
    }
    assert page in s'.procs[pid].user;
  }

  // --- Which faults are served ---------------------------------------------------------------------

  ghost predicate AllFrames(frames: seq<Option<nat>>) {
    forall i: nat {:trigger frames[i]} :: i < |frames| ==> frames[i].Some?
  }

  ghost predicate AllGranted(granted: seq<bool>) {
    forall i: nat {:trigger granted[i]} :: i < |granted| ==> granted[i]
  }

  /** A new mapping is made exactly if there is a frame for each page; it has those frames, behind everything else. */
  lemma NewMappingIff(s: State, id: nat, frames: seq<Option<nat>>)
    requires Inv(s)
    ensures
      var (s', ok) := NewMapping(s, id, frames);
      && (ok <==> AllFrames(frames)) && (!ok ==> s' == s)
      && (ok ==> && s'.procs == s.procs && s'.offset == s.offset + |frames|
                 && s'.windows == s.windows[id := Window(s.offset, s.offset + |frames|)]
                 && Grows(s.kernel, s'.kernel, s.offset, |frames|) && Framed(s'.kernel, s.offset, frames))
  {
    MapRangeSucceedsIff(s.kernel, s.offset, frames, true);
    MapRangeExact(s.kernel, s.offset, frames, true);
    var (s', ok) := NewMapping(s, id, frames);
    if ok {
      forall i: nat | i < |frames| ensures s.offset + i in s'.kernel && Some(s'.kernel[s.offset + i]) == frames[i] {
        assert PageFits(s.kernel, s.offset, frames, true, i);
        MapRangeFrames(s.kernel, s.offset, frames, true, i);
      }
    } else {
      var i: nat :| i < |frames| && !PageFits(s.kernel, s.offset, frames, true, i);
      assert frames[i].None?;
    }
  }

  /** The pages from `start` on have the frames listed. */
  ghost predicate Framed(m: PageMap, start: nat, frames: seq<Option<nat>>) {
    forall i: nat {:trigger frames[i]} :: i < |frames| ==> start + i in m && Some(m[start + i]) == frames[i]
  }

  /** What a fault needs: frames and tables for every page, and with a heap unmapped pages behind its window. */
  ghost predicate Servable(s: State, op: Op)
    requires Inv(s) && Enabled(s, op) && op.HeapFault?
  {
    && AllFrames(op.frames) && AllGranted(op.granted)
    && match s.procs[op.pid].heap
       case Some(held) => held in s.windows && NoneIn(s.kernel, s.windows[held].end, |op.frames|)
       case None => true
  }

  /** The heap of the process now reaches to the page, its new pages with the frames listed, and all else is as before. */
  ghost predicate Grown(s: State, op: Op, s': State)
    requires Inv(s) && Enabled(s, op) && op.HeapFault?
  {
    var proc := s.procs[op.pid];
    && op.pid in s'.procs && s'.procs[op.pid].heap == (if proc.heap.Some? then proc.heap else Some(op.id))
    && HeapLen(s, op.pid) >= 0 && HeapLen(s', op.pid) == op.page + 1
    && Grows(proc.user, s'.procs[op.pid].user, HeapLen(s, op.pid), |op.frames|)
    && Framed(s'.procs[op.pid].user, HeapLen(s, op.pid), op.frames)
  }

  /**
    Every other process, and every window but that of the heap, is as before.  The offset moves on
    by the pages asked for, and kernel pages appear only where the heap was to go.
   */
  ghost predicate OthersKept(s: State, op: Op, s': State)
    requires Inv(s) && Enabled(s, op) && op.HeapFault?
  {
    && s'.procs.Keys + {op.pid} == s.procs.Keys && (forall q :: q in s.procs && q != op.pid ==> s'.procs[q] == s.procs[q])
    && (forall w :: w in s.windows && Some(w) != s.procs[op.pid].heap ==> w in s'.windows && s'.windows[w] == s.windows[w])
    && match s.procs[op.pid].heap
       case Some(held) =>
         && held in s.windows && held in s'.windows && s'.offset == s.offset + |op.frames|
         && (!Servable(s, op) ==> s'.windows == s.windows)
         && Grows(s.kernel, s'.kernel, s.windows[held].end, |op.frames|)
       case None =>
         AllFrames(op.frames) ==> s'.offset == s.offset + |op.frames| && Grows(s.kernel, s'.kernel, s.offset, |op.frames|)
  }

  lemma ExtendServedIff(s: State, op: Op)
    requires Inv(s) && Enabled(s, op) && op.HeapFault? && s.procs[op.pid].heap.Some?
    ensures
      var s' := Step(s, op);
      && (op.pid in s'.procs <==> Servable(s, op)) && (Servable(s, op) ==> Grown(s, op, s')) && OthersKept(s, op, s')
  {
    var HeapFault(pid, page, _, frames, granted) := op;
    var held := s.procs[pid].heap.value;
    assert HeapOk(s, pid);
    assert WindowOk(s, held);
    var w := s.windows[held];
    MapRangeSucceedsIff(s.kernel, w.end, frames, false);
    MapRangeExact(s.kernel, w.end, frames, false);
    FreeBehind(s.kernel, w.end, frames);
    var (kernel, ok) := MapRange(s.kernel, w.end, frames, false);
    if ok {
      MapPairsSucceedsIff(s.procs[pid].user, kernel, w.Len(), w.end, granted);
      MapPairsExact(s.procs[pid].user, kernel, w.Len(), w.end, granted);
      BehindHeap(s, pid, granted);
      var (user, okay) := MapPairs(s.procs[pid].user, kernel, w.Len(), w.end, granted);
      if okay {
        PairsFramed(s.kernel, kernel, user, w, frames);
      }
    }
  }

  lemma FreeBehind(m: PageMap, start: nat, frames: seq<Option<nat>>)
    ensures (forall i: nat {:trigger PageFits(m, start, frames, false, i)} :: i < |frames| ==> PageFits(m, start, frames, false, i)) <==>
            AllFrames(frames) && NoneIn(m, start, |frames|)
  {
    if forall i: nat {:trigger PageFits(m, start, frames, false, i)} :: i < |frames| ==> PageFits(m, start, frames, false, i) {
      forall p: nat | start <= p < start + |frames| ensures p !in m {
        assert PageFits(m, start, frames, false, p - start);
      }
      forall i: nat | i < |frames| ensures frames[i].Some? {
        assert PageFits(m, start, frames, false, i);
      }
    }
  }

  lemma BehindHeap(s: State, pid: nat, granted: seq<bool>)
    requires Inv(s) && pid in s.procs && s.procs[pid].heap.Some? && HeapLen(s, pid) >= 0
    ensures
      var user, len := s.procs[pid].user, HeapLen(s, pid);
      (forall i: nat {:trigger PairFits(user, len, granted, i)} :: i < |granted| ==> PairFits(user, len, granted, i)) <==> AllGranted(granted)
  {
    assert HeapOk(s, pid);
    var user, len := s.procs[pid].user, HeapLen(s, pid);
    forall i: nat | i < |granted| ensures PairFits(user, len, granted, i) <==> granted[i] {
    }
  }

  lemma PairsFramed(m: PageMap, kernel: PageMap, user: PageMap, w: Window, frames: seq<Option<nat>>)
    requires MapRange(m, w.end, frames, false) == (kernel, true) && 0 <= w.Len()
    requires Shares(user, kernel, w.Len(), w.end, |frames|)
    ensures Framed(user, w.Len(), frames)
  {
    MapRangeSucceedsIff(m, w.end, frames, false);
    forall i: nat | i < |frames| ensures w.Len() + i in user && Some(user[w.Len() + i]) == frames[i] {
      assert PageFits(m, w.end, frames, false, i);
      MapRangeFrames(m, w.end, frames, false, i);
      assert SharesAt(user, kernel, w.Len(), w.end, w.Len() + i);
    }
  }

  lemma CreateServedIff(s: State, op: Op)
    requires Inv(s) && Enabled(s, op) && op.HeapFault? && s.procs[op.pid].heap.None?
    ensures
      var s' := Step(s, op);
      && (op.pid in s'.procs <==> AllGranted(op.granted) || !AllFrames(op.frames))
      && (Servable(s, op) ==> Grown(s, op, s')) && (!AllFrames(op.frames) ==> s' == s) && OthersKept(s, op, s')
  {
    var HeapFault(pid, page, id, frames, granted) := op;
    assert HeapOk(s, pid);
    NewMappingIff(s, id, frames);
    var (s1, ok) := NewMapping(s, id, frames);
    if ok {
      MapRangeExact(s.kernel, s.offset, frames, true);
      MapPairsSucceedsIff(map[], s1.kernel, 0, s.offset, granted);
      MapPairsExact(map[], s1.kernel, 0, s.offset, granted);
      forall i: nat | i < |granted| ensures PairFits(map[], 0, granted, i) <==> granted[i] {
      }
      var (user, okay) := MapPairs(map[], s1.kernel, 0, s.offset, granted);
      if okay {
        forall i: nat | i < |frames| ensures i in user && Some(user[0 + i]) == frames[i] {
          assert SharesAt(user, s1.kernel, 0, s.offset, i);
        }
      }
    }
  }

  /**
    The process that faults goes on exactly if the fault can be served, or if not even the kernel
    mapping could be made, which stops the kernel and is a step that changes nothing.  A fault that
    is served makes the heap reach to the page, with the frames listed, and touches nothing else.
   */
  lemma FaultServedIff(s: State, op: Op)
    requires Inv(s) && Enabled(s, op) && op.HeapFault?
    ensures
      var s' := Step(s, op);
      && (op.pid in s'.procs <==> Servable(s, op) || (s.procs[op.pid].heap.None? && !AllFrames(op.frames)))
      && (Servable(s, op) ==> Grown(s, op, s')) && OthersKept(s, op, s')
      && (s.procs[op.pid].heap.None? && !AllFrames(op.frames) ==> s' == s)
  {
    if s.procs[op.pid].heap.Some? {
      ExtendServedIff(s, op);
    } else {
      CreateServedIff(s, op);
    }
  }

  /** A new process has no heap and no page of one, and nothing else changes. */
  lemma SpawnedEmpty(s: State, pid: nat)
    requires Inv(s) && pid !in s.procs
    ensures
      var s' := Step(s, Spawn(pid));
      && pid in s'.procs && s'.procs[pid].heap == None && s'.procs[pid].user == map[]
      && s'.procs.Keys == s.procs.Keys + {pid} && (forall q :: q in s.procs ==> s'.procs[q] == s.procs[q])
      && s'.kernel == s.kernel && s'.windows == s.windows && s'.offset == s.offset
  {
  }

  /** A heap whose window is directly followed by another one can never grow again. */
  lemma NeighbourBlocksHeap(s: State, pid: nat, id: nat, next: nat, frames: seq<Option<nat>>, granted: seq<bool>)
    requires Inv(s) && pid in s.procs && s.procs[pid].heap == Some(id) && id in s.windows && next in s.windows
    requires s.windows[next].start == s.windows[id].end && s.windows[next].start < s.windows[next].end
    requires 0 < |frames| == |granted| && 0 <= s.windows[id].Len()
    ensures !Extend(s, pid, id, frames, granted).1
  {
    assert WindowOk(s, next);
    assert s.windows[next].Has(s.windows[id].end);
  }

  /**
    In a release build the length of the extension wraps for a page below the heap's end.  The
    assertion then passes, and the checked addition behind it panics instead: in either case
    the kernel panics exactly on a fault in a page that is mapped.  `end` is the number of the
    page behind the kernel window.
   */
  lemma FaultPanicsIff(s: State, pid: nat, page: nat, end: nat)
    requires Inv(s) && pid in s.procs && s.procs[pid].heap.Some? && HeapLen(s, pid) <= end < WORD / 2 && page < WORD / 2
    ensures
      var len := Wrap(page + 1 - HeapLen(s, pid));
      (len == 0 || end + len >= WORD) <==> page in s.procs[pid].user
  {
    FaultExtendsIff(s, pid, page);
    assert HeapOk(s, pid);
    var d := page + 1 - HeapLen(s, pid);
    assert Wrap(d) == if d < 0 then d + WORD else d;
  }

  /** The second window begins where the first one ends, and is not empty. */
  ghost predicate Adjacent(s: State, id: nat, next: nat) {
    && id in s.windows && next in s.windows && id != next
    && s.windows[next].start == s.windows[id].end < s.windows[next].end
  }

  lemma AdjacencyStays(s: State, op: Op, id: nat, next: nat)
    requires Inv(s) && Enabled(s, op) && Adjacent(s, id, next)
    ensures Adjacent(Step(s, op), id, next) && Step(s, op).windows[id] == s.windows[id]
  {
    if op.HeapFault? && s.procs[op.pid].heap.Some? {
      var held := s.procs[op.pid].heap.value;
      assert HeapOk(s, op.pid);
      assert WindowOk(s, held);
      FaultExtendsIff(s, op.pid, op.page);
      ExtendExact(s, op.pid, held, op.frames, op.granted);
      if held == id {
        NeighbourBlocksHeap(s, op.pid, id, next, op.frames, op.granted);
      }
    }
  }

  /** Once another window follows it directly, a heap's window never changes again, in any run. */
  lemma {:induction false} NeighbourBlocksForever(s: State, ops: seq<Op>, t: State, id: nat, next: nat)
    requires Inv(s) && Run(s, ops, t) && Adjacent(s, id, next)
    ensures Adjacent(t, id, next) && t.windows[id] == s.windows[id]
    decreases |ops|
  {
    if ops != [] {
      StepInv(s, ops[0]);
      AdjacencyStays(s, ops[0], id, next);
      NeighbourBlocksForever(Step(s, ops[0]), ops[1..], t, id, next);
    }
  }
}
