/**
  The loops of `map_pages`, `map_pages_untracked` and `map_kernel_pages_to` on four-level tables:
  what they do is what the flat maps of `KernelMapping` say, page for page and answer for answer.
 */
module KernelTables {
  import opened PageTable
  import opened PageRuns
  import KM = KernelMapping
  import opened Options

  /** A map of pages counted from `at` on shows the frames of the whole flat map. */
  ghost predicate Shows(m: KM.PageMap, flat: Flat, at: nat) {
    forall p: nat {:trigger ShowsAt(m, flat, at, p)} :: ShowsAt(m, flat, at, p)
  }

  predicate ShowsAt(m: KM.PageMap, flat: Flat, at: nat, p: nat) {
    (p in m <==> at + p in flat) && (p in m ==> m[p] == flat[at + p].frame)
  }

  /** Whether the loop goes on to the next page after this answer. */
  predicate Goes(o: Outcome, skip: bool) {
    o.MapOutcome? && (o.r == Mapped || (skip && o.r.PageAlreadyMapped?))
  }

  /** A loop of `map_to` over consecutive pages, which ends behind the first answer that is an error. */
  ghost predicate Loop(calls: seq<Call>, os: seq<Outcome>, page: nat, flags: Flags, skip: bool)
    decreases |calls|
  {
    |calls| == |os| &&
    (calls == [] ||
     (&& calls[0].op.Map? && calls[0].op.page == page && calls[0].op.flags == flags
      && if Goes(os[0], skip) then Loop(calls[1..], os[1..], page + 1, flags, skip) else |calls| == 1))
  }

  ghost predicate AllGo(os: seq<Outcome>, skip: bool) {
    forall i :: 0 <= i < |os| ==> Goes(os[i], skip)
  }

  /** The frame each page was offered, or none where tables for it could not be had. */
  function Offered(calls: seq<Call>, os: seq<Outcome>): (frames: seq<Option<nat>>)
    requires |calls| == |os| && forall i :: 0 <= i < |calls| ==> calls[i].op.Map?
  {
    seq(|calls|, i requires 0 <= i < |calls| => if os[i] == MapOutcome(FrameAllocationFailed) then None else Some(calls[i].op.frame))
  }

  lemma {:induction false} LoopMaps(calls: seq<Call>, os: seq<Outcome>, page: nat, flags: Flags, skip: bool)
    requires Loop(calls, os, page, flags, skip)
    ensures forall i :: 0 <= i < |calls| ==> calls[i].op.Map?
    decreases |calls|
  {
    if calls == [] {
    } else if Goes(os[0], skip) {
      LoopMaps(calls[1..], os[1..], page + 1, flags, skip);
      assert forall i :: 0 < i < |calls| ==> calls[i] == calls[1..][i - 1];
    }
  }

  lemma ShowsMapped(m: KM.PageMap, flat: Flat, at: nat, p: nat, e: Entry)
    requires Shows(m, flat, at)
    ensures Shows(m[p := e.frame], flat[at + p := e], at)
  {
    var m', flat' := m[p := e.frame], flat[at + p := e];
    forall q: nat ensures ShowsAt(m', flat', at, q) {
      assert ShowsAt(m, flat, at, q);
    }
  }

  lemma RunUnfolds(s: Space, calls: seq<Call>) returns (s1: Space, o: Outcome)
    requires Sound(s) && Possible(s, calls) && calls != []
    ensures (s1, o) == (Step(s, calls[0].op, calls[0].supply).0, Step(s, calls[0].op, calls[0].supply).1)
    ensures Sound(s1) && Possible(s1, calls[1..])
    ensures Run(s, calls).0 == Run(s1, calls[1..]).0 && Run(s, calls).1 == [o] + Run(s1, calls[1..]).1
  {
    StepGood(s, calls[0].op, calls[0].supply);
    s1, o := Step(s, calls[0].op, calls[0].supply).0, Step(s, calls[0].op, calls[0].supply).1;
  }

  /** The first page of a loop, and the rest of it. */
  lemma LoopFirst(s: Space, flat: Flat, calls: seq<Call>, page: nat, flags: Flags, skip: bool) returns (s1: Space, o: Outcome, flat1: Flat)
    requires Sound(s) && Possible(s, calls) && Refines(s, flat) && Huge !in flags && calls != []
    requires Loop(calls, Run(s, calls).1, page, flags, skip)
    ensures Sound(s1) && Possible(s1, calls[1..]) && Run(s, calls).1 == [o] + Run(s1, calls[1..]).1
    ensures Refines(s1, flat1) && FlatRun(flat, calls, Run(s, calls).1) == FlatRun(flat1, calls[1..], Run(s1, calls[1..]).1)
    ensures if Goes(o, skip) then Loop(calls[1..], Run(s1, calls[1..]).1, page + 1, flags, skip) else |calls| == 1
    ensures calls[0].op.Map? && o.MapOutcome? && (o.r == Mapped || o.r.PageAlreadyMapped? || o.r == FrameAllocationFailed)
    ensures o.r.PageAlreadyMapped? <==> page in flat
    ensures flat1 == if o.r == Mapped then flat[page := Entry(calls[0].op.frame, flags)] else flat
  {
    s1, o := RunUnfolds(s, calls);
    var os := Run(s, calls).1;
    assert os[0] == o && os[1..] == Run(s1, calls[1..]).1;
    StepRefines(s, flat, calls[0].op, calls[0].supply);
    flat1 := FlatStep(flat, calls[0].op, o);
  }

  lemma AllGoFirst(o: Outcome, os: seq<Outcome>, skip: bool)
    ensures AllGo([o] + os, skip) <==> Goes(o, skip) && AllGo(os, skip)
  {
    if AllGo([o] + os, skip) {
      assert Goes(([o] + os)[0], skip);
      forall i | 0 <= i < |os| ensures Goes(os[i], skip) {
        assert ([o] + os)[i + 1] == os[i];
      }
    }
  }

  lemma OfferedFirst(calls: seq<Call>, o: Outcome, os: seq<Outcome>, tail: seq<Option<nat>>)
    requires |calls| == |os| + 1 && forall i :: 0 <= i < |calls| ==> calls[i].op.Map?
    ensures
      var frames := Offered(calls, [o] + os) + tail;
      && frames != [] && frames[0] == (if o == MapOutcome(FrameAllocationFailed) then None else Some(calls[0].op.frame))
      && frames[1..] == Offered(calls[1..], os) + tail
  {
  }

  /** The answers of a loop over tables that refine `flat`: occupied exactly where `flat` is, and each page mapped as it goes. */
  ghost predicate Answers(flat: Flat, calls: seq<Call>, os: seq<Outcome>, page: nat, flags: Flags, skip: bool)
    decreases |calls|
  {
    |calls| == |os| &&
    (calls == [] ||
     (&& calls[0].op.Map? && os[0].MapOutcome? && (os[0].r.PageAlreadyMapped? <==> page in flat)
      && (os[0].r == Mapped || os[0].r.PageAlreadyMapped? || os[0].r == FrameAllocationFailed)
      && if !Goes(os[0], skip) then |calls| == 1
         else Answers(if os[0].r == Mapped then flat[page := Entry(calls[0].op.frame, flags)] else flat,
                      calls[1..], os[1..], page + 1, flags, skip)))
  }

  /** The flat map after the loop. */
  ghost function Ends(flat: Flat, calls: seq<Call>, os: seq<Outcome>, page: nat, flags: Flags): (flat': Flat)
    requires |calls| == |os| && forall i :: 0 <= i < |calls| ==> calls[i].op.Map?
    decreases |calls|
  {
    if calls == [] then flat
    else
      Ends(if os[0] == MapOutcome(Mapped) then flat[page := Entry(calls[0].op.frame, flags)] else flat, calls[1..], os[1..], page + 1, flags)
  }

  lemma {:induction false} LoopAnswers(s: Space, flat: Flat, calls: seq<Call>, page: nat, flags: Flags, skip: bool)
    requires Sound(s) && Possible(s, calls) && Refines(s, flat) && Huge !in flags && Loop(calls, Run(s, calls).1, page, flags, skip)
    ensures Answers(flat, calls, Run(s, calls).1, page, flags, skip)
    ensures forall i :: 0 <= i < |calls| ==> calls[i].op.Map?
    ensures FlatRun(flat, calls, Run(s, calls).1) == Ends(flat, calls, Run(s, calls).1, page, flags)
    decreases |calls|
  {
    LoopMaps(calls, Run(s, calls).1, page, flags, skip);
    if calls == [] {
    } else {
      var s1, o, flat1 := LoopFirst(s, flat, calls, page, flags, skip);
      var os, os1 := Run(s, calls).1, Run(s1, calls[1..]).1;
      assert os[0] == o && os[1..] == os1;
      if Goes(o, skip) {
        LoopAnswers(s1, flat1, calls[1..], page + 1, flags, skip);
      } else {
        assert calls[1..] == [] && os1 == [];
      }
    }
  }

  lemma {:induction false} AnswersMapRange(flat: Flat, m: KM.PageMap, at: nat, start: nat, calls: seq<Call>, os: seq<Outcome>,
                                           flags: Flags, skip: bool, tail: seq<Option<nat>>)
    requires Shows(m, flat, at) && Answers(flat, calls, os, at + start, flags, skip)
    requires (AllGo(os, skip) ==> tail == []) && forall i :: 0 <= i < |calls| ==> calls[i].op.Map?
    ensures
      var (m', ok) := KM.MapRange(m, start, Offered(calls, os) + tail, skip);
      Shows(m', Ends(flat, calls, os, at + start, flags), at) && (ok <==> AllGo(os, skip))
    decreases |calls|
  {
    if calls == [] {
      assert Offered(calls, os) + tail == [];
    } else {
      var o, os1 := os[0], os[1..];
      assert os == [o] + os1;
      AllGoFirst(o, os1, skip);
      OfferedFirst(calls, o, os1, tail);
      assert ShowsAt(m, flat, at, start);
      if Goes(o, skip) {
        var m1 := if o.r == Mapped then m[start := calls[0].op.frame] else m;
        var flat1 := if o.r == Mapped then flat[at + start := Entry(calls[0].op.frame, flags)] else flat;
        ShowsMapped(m, flat, at, start, Entry(calls[0].op.frame, flags));
        AnswersMapRange(flat1, m1, at, start + 1, calls[1..], os1, flags, skip, tail);
        MapRangeGoes(m, start, Offered(calls, os) + tail, skip, o);
      } else {
        assert calls[1..] == [] && os1 == [];
        assert Ends(flat, calls, os, at + start, flags) == flat;
        assert KM.MapRange(m, start, Offered(calls, os) + tail, skip) == (m, false);
      }
    }
  }

  /** One page of `MapRange`, by the answer for it. */
  lemma MapRangeGoes(m: KM.PageMap, start: nat, frames: seq<Option<nat>>, skip: bool, o: Outcome)
    requires frames != [] && Goes(o, skip) && (o.r.PageAlreadyMapped? <==> start in m) && (start !in m ==> frames[0].Some?)
    ensures KM.MapRange(m, start, frames, skip) ==
            KM.MapRange(if o.r == Mapped then m[start := frames[0].value] else m, start + 1, frames[1..], skip)
  {
  }

  /**
    Any loop over four-level tables, with whatever frames and failures, is `MapRange` on the flat
    maps that the tables refine; it succeeds exactly if `MapRange` does.
   */
  lemma LoopIsMapRange(s: Space, flat: Flat, m: KM.PageMap, at: nat, start: nat, calls: seq<Call>,
                       flags: Flags, skip: bool, tail: seq<Option<nat>>)
    requires Sound(s) && Possible(s, calls) && Refines(s, flat) && Shows(m, flat, at) && Huge !in flags
    requires Loop(calls, Run(s, calls).1, at + start, flags, skip) && (AllGo(Run(s, calls).1, skip) ==> tail == [])
    ensures forall i :: 0 <= i < |calls| ==> calls[i].op.Map?
    ensures
      var (s', os) := Run(s, calls);
      var (m', ok) := KM.MapRange(m, start, Offered(calls, os) + tail, skip);
      && Refines(s', FlatRun(flat, calls, os)) && Shows(m', FlatRun(flat, calls, os), at)
      && (ok <==> AllGo(os, skip))
  {
    LoopAnswers(s, flat, calls, at + start, flags, skip);
    AnswersMapRange(flat, m, at, start, calls, Run(s, calls).1, flags, skip, tail);
    RunRefines(s, flat, calls);
  }

  // --- Mapping kernel pages for a process -------------------------------------------------------------

  /** Each page of the loop is offered the frame of a kernel page. */
  ghost predicate FromKernel(calls: seq<Call>, kernel: KM.PageMap, k: nat) {
    forall i :: 0 <= i < |calls| ==> calls[i].op.Map? && k + i in kernel && calls[i].op.frame == kernel[k + i]
  }

  function Granted(os: seq<Outcome>): (granted: seq<bool>) {
    seq(|os|, i requires 0 <= i < |os| => os[i] != MapOutcome(FrameAllocationFailed))
  }

  lemma FromKernelFirst(calls: seq<Call>, kernel: KM.PageMap, k: nat)
    requires FromKernel(calls, kernel, k) && calls != []
    ensures FromKernel(calls[1..], kernel, k + 1)
  {
    forall i | 0 <= i < |calls[1..]|
      ensures calls[1..][i].op.Map? && k + 1 + i in kernel && calls[1..][i].op.frame == kernel[k + 1 + i]
    {
      assert calls[1..][i] == calls[i + 1];
    }
  }

  lemma GrantedFirst(o: Outcome, os: seq<Outcome>, tail: seq<bool>)
    ensures
      var granted := Granted([o] + os) + tail;
      granted != [] && granted[0] == (o != MapOutcome(FrameAllocationFailed)) && granted[1..] == Granted(os) + tail
  {
  }

  lemma {:induction false} AnswersMapPairs(flat: Flat, user: KM.PageMap, kernel: KM.PageMap, at: nat, u: nat, k: nat,
                                           calls: seq<Call>, os: seq<Outcome>, flags: Flags, tail: seq<bool>)
    requires Shows(user, flat, at) && Answers(flat, calls, os, at + u, flags, false) && FromKernel(calls, kernel, k)
    requires (AllGo(os, false) ==> tail == []) && KM.AllIn(kernel, k, |calls| + |tail|)
    ensures
      var (user', ok) := KM.MapPairs(user, kernel, u, k, Granted(os) + tail);
      Shows(user', Ends(flat, calls, os, at + u, flags), at) && (ok <==> AllGo(os, false))
    decreases |calls|
  {
    if calls == [] {
      assert Granted(os) + tail == [];
    } else {
      var o, os1 := os[0], os[1..];
      assert os == [o] + os1;
      AllGoFirst(o, os1, false);
      GrantedFirst(o, os1, tail);
      FromKernelFirst(calls, kernel, k);
      assert ShowsAt(user, flat, at, u) && calls[0].op.frame == kernel[k + 0];
      if Goes(o, false) {
        ShowsMapped(user, flat, at, u, Entry(kernel[k], flags));
        AnswersMapPairs(flat[at + u := Entry(kernel[k], flags)], user[u := kernel[k]], kernel, at, u + 1, k + 1,
                        calls[1..], os1, flags, tail);
      } else {
        assert calls[1..] == [] && os1 == [];
        assert Ends(flat, calls, os, at + u, flags) == flat;
        assert KM.MapPairs(user, kernel, u, k, Granted(os) + tail) == (user, false);
      }
    }
  }

  /** Likewise for the loop that maps kernel pages for a process. */
  lemma LoopIsMapPairs(s: Space, flat: Flat, user: KM.PageMap, kernel: KM.PageMap, at: nat, u: nat, k: nat, calls: seq<Call>,
                       flags: Flags, tail: seq<bool>)
    requires Sound(s) && Possible(s, calls) && Refines(s, flat) && Shows(user, flat, at) && Huge !in flags
    requires Loop(calls, Run(s, calls).1, at + u, flags, false) && FromKernel(calls, kernel, k)
    requires (AllGo(Run(s, calls).1, false) ==> tail == []) && KM.AllIn(kernel, k, |calls| + |tail|)
    ensures
      var (s', os) := Run(s, calls);
      |os| == |calls| &&
      var (user', ok) := KM.MapPairs(user, kernel, u, k, Granted(os) + tail);
      && Refines(s', FlatRun(flat, calls, os)) && Shows(user', FlatRun(flat, calls, os), at)
      && (ok <==> AllGo(os, false))
  {
    LoopAnswers(s, flat, calls, at + u, flags, false);
    AnswersMapPairs(flat, user, kernel, at, u, k, calls, Run(s, calls).1, flags, tail);
    RunRefines(s, flat, calls);
  }
}
