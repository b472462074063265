/**
  The global allocator shared by any number of proxies: every run of allocations and drops
  keeps the used frames partitioned among the owners, and returns what it took.
 */
module Ledger {
  import opened FrameView
  import opened Sequences

  /** The allocator's state and the frames each live proxy has been given. */
  datatype Ledger = Ledger(frames: Frames, owned: map<nat, seq<nat>>)

  datatype Op = Create(proxy: nat) | Take(proxy: nat) | Drop(proxy: nat)

  /** Give the frames back one by one, ignoring the results. */
  function Release(s: Frames, fs: seq<nat>): (r: Frames)
    decreases |fs|
  {
    if fs == [] then s else Release(Deallocate(s, fs[0]).0, fs[1..])
  }

  function Step(l: Ledger, op: Op): (r: Ledger)
    requires l.frames.hint <= |l.frames.view|
  {
    match op
    case Create(p) => if p in l.owned then l else Ledger(l.frames, l.owned[p := []])
    case Take(p) =>
      if p !in l.owned then l
      else
        var (s, f) := Allocate(l.frames);
        if f == |l.frames.view| then l else Ledger(s, l.owned[p := l.owned[p] + [f]])
    case Drop(p) =>
      if p !in l.owned then l else Ledger(Release(l.frames, l.owned[p]), l.owned - {p})
  }

  ghost predicate OwnedBySome(owned: map<nat, seq<nat>>, f: nat) {
    exists p :: p in owned && f in owned[p]
  }

  /** A frame is used exactly if it was from the start or one proxy, and only one, has it. */
  ghost predicate Partition(l: Ledger, base: View) {
    && FrameView.Inv(l.frames) && |l.frames.view| == |base|
    && (forall f: nat {:trigger OwnedBySome(l.owned, f)} {:trigger base[f]} :: f < |base| ==>
          (l.frames.view[f] <==> base[f] || OwnedBySome(l.owned, f)) && !(base[f] && OwnedBySome(l.owned, f)))
    && (forall p {:trigger Distinct(l.owned[p])} :: p in l.owned ==> Distinct(l.owned[p]) && forall f :: f in l.owned[p] ==> f < |base|)
    && (forall p, q, f: nat {:trigger f in l.owned[p], f in l.owned[q]} ::
          p in l.owned && q in l.owned && p != q && f in l.owned[p] ==> f !in l.owned[q])
  }

  /** A frame that is freed is marked free; the others keep their mark. */
  lemma {:induction false} ReleaseExact(s: Frames, fs: seq<nat>)
    requires FrameView.Inv(s)
    ensures FrameView.Inv(Release(s, fs)) && |Release(s, fs).view| == |s.view|
    ensures forall f: nat :: f < |s.view| ==> (Release(s, fs).view[f] <==> s.view[f] && f !in fs)
    decreases |fs|
  {
    if fs != [] {
      DeallocateInv(s, fs[0]);
      ReleaseExact(Deallocate(s, fs[0]).0, fs[1..]);
      assert fs == [fs[0]] + fs[1..];
    }
  }

  lemma TakeKeeps(l: Ledger, p: nat, base: View)
    requires Partition(l, base) && p in l.owned
    ensures Partition(Step(l, Take(p)), base)
  {
    AllocateLowest(l.frames);
    var (s, f) := Allocate(l.frames);
    if f < |base| {
      assert !OwnedBySome(l.owned, f);
      var l' := Step(l, Take(p));
      assert l'.owned[p] == l.owned[p] + [f];
      forall g: nat | g < |base|
        ensures (l'.frames.view[g] <==> base[g] || OwnedBySome(l'.owned, g)) && !(base[g] && OwnedBySome(l'.owned, g))
      {
        TakeOwners(l.owned, p, f, g);
        assert l.frames.view[g] <==> base[g] || OwnedBySome(l.owned, g);
      }
      forall q | q in l'.owned ensures Distinct(l'.owned[q]) && forall g :: g in l'.owned[q] ==> g < |base| {
        assert Distinct(l.owned[q]);
        if q == p {
          assert f !in l.owned[p];
          DistinctFresh(l.owned[p], f);
        }
      }
      forall q, r, g: nat | q in l'.owned && r in l'.owned && q != r && g in l'.owned[q] ensures g !in l'.owned[r] {
        if g == f {
          assert f !in l.owned[q] && f !in l.owned[r];
        }
      }
    }
  }

  lemma TakeOwners(owned: map<nat, seq<nat>>, p: nat, f: nat, g: nat)
    requires p in owned
    ensures OwnedBySome(owned[p := owned[p] + [f]], g) <==> g == f || OwnedBySome(owned, g)
  {
    var owned' := owned[p := owned[p] + [f]];
    if OwnedBySome(owned, g) {
      var q :| q in owned && g in owned[q];
      assert g in owned'[q];
    }
    if g == f {
      assert g in owned'[p];
    }
    if OwnedBySome(owned', g) && g != f {
      var q :| q in owned' && g in owned'[q];
      assert g in owned[q];
    }
  }

  lemma DropKeeps(l: Ledger, p: nat, base: View)
    requires Partition(l, base) && p in l.owned
    ensures Partition(Step(l, Drop(p)), base)
  {
    ReleaseExact(l.frames, l.owned[p]);
    var l' := Step(l, Drop(p));
    forall g: nat | g < |base|
      ensures (l'.frames.view[g] <==> base[g] || OwnedBySome(l'.owned, g)) && !(base[g] && OwnedBySome(l'.owned, g))
    {
      assert l.frames.view[g] <==> base[g] || OwnedBySome(l.owned, g);
      if g in l.owned[p] {
        assert OwnedBySome(l.owned, g);
        forall q | q in l'.owned ensures g !in l'.owned[q] {
          assert q != p && g !in l.owned[q];
        }
      } else if OwnedBySome(l.owned, g) {
        var q :| q in l.owned && g in l.owned[q];
        assert g in l'.owned[q];
      }
      if OwnedBySome(l'.owned, g) {
        var q :| q in l'.owned && g in l'.owned[q];
        assert g in l.owned[q];
      }
    }
    forall q | q in l'.owned ensures Distinct(l'.owned[q]) {
      assert Distinct(l.owned[q]);
    }
  }

  lemma CreateKeeps(l: Ledger, p: nat, base: View)
    requires Partition(l, base) && p !in l.owned
    ensures Partition(Step(l, Create(p)), base)
  {
    var l' := Step(l, Create(p));
    forall g: nat | g < |base|
      ensures (l'.frames.view[g] <==> base[g] || OwnedBySome(l'.owned, g)) && !(base[g] && OwnedBySome(l'.owned, g))
    {
      assert l.frames.view[g] <==> base[g] || OwnedBySome(l.owned, g);
      if OwnedBySome(l.owned, g) {
        var q :| q in l.owned && g in l.owned[q];
        assert g in l'.owned[q];
      }
      if OwnedBySome(l'.owned, g) {
        var q :| q in l'.owned && g in l'.owned[q];
        assert g in l.owned[q];
      }
    }
    forall q | q in l'.owned ensures Distinct(l'.owned[q]) {
      if q != p {
        assert Distinct(l.owned[q]);
      }
    }
  }

  function Run(l: Ledger, ops: seq<Op>): (r: Ledger)
    requires FrameView.Inv(l.frames)
    decreases |ops|
  {
    if ops == [] then l
    else
      assert FrameView.Inv(Step(l, ops[0]).frames) by { StepInv(l, ops[0]); }
      Run(Step(l, ops[0]), ops[1..])
  }

  lemma StepInv(l: Ledger, op: Op)
    requires FrameView.Inv(l.frames)
    ensures FrameView.Inv(Step(l, op).frames)
  {
    AllocateLowest(l.frames);
    if op.Drop? && op.proxy in l.owned {
      ReleaseExact(l.frames, l.owned[op.proxy]);
    }
  }

  /** Over every run of any number of proxies the used frames stay partitioned. */
  lemma {:induction false} RunPartition(l: Ledger, ops: seq<Op>, base: View)
    requires Partition(l, base)
    ensures Partition(Run(l, ops), base)
    decreases |ops|
  {
    if ops != [] {
      match ops[0] {
        case Create(p) => if p !in l.owned { CreateKeeps(l, p, base); }
        case Take(p) => if p in l.owned { TakeKeeps(l, p, base); }
        case Drop(p) => if p in l.owned { DropKeeps(l, p, base); }
      }
      RunPartition(Step(l, ops[0]), ops[1..], base);
    }
  }

  /** Once every proxy has been dropped, exactly the frames free at the start are free again. */
  lemma AllDroppedRestores(s: Frames, ops: seq<Op>)
    requires FrameView.Inv(s) && Run(Ledger(s, map[]), ops).owned == map[]
    ensures Run(Ledger(s, map[]), ops).frames.view == s.view
    ensures Run(Ledger(s, map[]), ops).frames.free == s.free
  {
    var l := Ledger(s, map[]);
    assert Partition(l, s.view);
    RunPartition(l, ops, s.view);
    var r := Run(l, ops);
    forall f: nat | f < |s.view| ensures r.frames.view[f] == s.view[f] {
      assert !OwnedBySome(r.owned, f);
    }
  }
}
