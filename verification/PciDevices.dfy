/**
  Enumerating PCI devices: a resumable iterator that yields, one call at a time, what nested
  loops over buses, devices and functions would collect.
 */
module PciDevices {
  import opened Options

  datatype Device = Device(bus: nat, id: nat, func: nat)

  /** The devices there are, each with whether its header says it has several functions. */
  type Probe = map<Device, bool>

  function Open(open: Probe, bus: nat, id: nat, func: nat): (r: Option<bool>) {
    if Device(bus, id, func) in open then Some(open[Device(bus, id, func)]) else None
  }

  // --- The nested loops ---------------------------------------------------------------------------------

  function Functions(open: Probe, bus: nat, id: nat, func: nat): (ds: seq<Device>)
    decreases 8 - func, open
  {
    if func >= 8 then []
    else (if Open(open, bus, id, func).Some? then [Device(bus, id, func)] else []) + Functions(open, bus, id, func + 1)
  }

  function Slot(open: Probe, bus: nat, id: nat): (ds: seq<Device>) {
    match Open(open, bus, id, 0)
    case None => []
    case Some(multi) => [Device(bus, id, 0)] + if multi then Functions(open, bus, id, 1) else []
  }

  function Slots(open: Probe, bus: nat, id: nat): (ds: seq<Device>)
    decreases 32 - id, open
  {
    if id >= 32 then [] else Slot(open, bus, id) + Slots(open, bus, id + 1)
  }

  function Buses(open: Probe, bus: nat): (ds: seq<Device>)
    decreases 256 - bus, open
  {
    if bus >= 256 then [] else Slots(open, bus, 0) + Buses(open, bus + 1)
  }

  // --- The iterator ---------------------------------------------------------------------------------------

  lemma {:induction false} FunctionsSkip(open: Probe, bus: nat, id: nat, lo: nat, hi: nat)
    requires lo <= hi <= 8 && forall f :: lo <= f < hi ==> Open(open, bus, id, f).None?
    ensures Functions(open, bus, id, lo) == Functions(open, bus, id, hi)
    decreases hi - lo
  {
    if lo < hi {
      FunctionsSkip(open, bus, id, lo + 1, hi);
    }
  }

  lemma {:induction false} SlotsSkip(open: Probe, bus: nat, lo: nat, hi: nat)
    requires lo <= hi <= 32 && forall id :: lo <= id < hi ==> Open(open, bus, id, 0).None?
    ensures Slots(open, bus, lo) == Slots(open, bus, hi)
    decreases hi - lo
  {
    if lo < hi {
      SlotsSkip(open, bus, lo + 1, hi);
      assert Slot(open, bus, lo) == [];
    }
  }

  /** Where nothing is left on a bus, nothing is left behind any of its devices either. */
  lemma {:induction false} SlotsEmpty(open: Probe, bus: nat, lo: nat, id: nat)
    requires lo <= id && Slots(open, bus, lo) == []
    ensures Slots(open, bus, id) == []
    decreases id - lo
  {
    if lo < 32 {
      assert Slot(open, bus, lo) == [] && Slots(open, bus, lo + 1) == [];
      if lo < id {
        SlotsEmpty(open, bus, lo + 1, id);
      }
    }
  }

  /** One call of an iterator: the first of what was to come, and what is to come after it. */
  ghost predicate Yields(before: seq<Device>, r: Option<Device>, after: seq<Device>) {
    match r
    case None => before == [] == after
    case Some(x) => before == [x] + after
  }

  lemma YieldsFront(p: seq<Device>, r: Option<Device>, p': seq<Device>, rest: seq<Device>)
    requires Yields(p, r, p') && r.Some?
    ensures Yields(p + rest, r, p' + rest)
  {
  }

  lemma YieldsBack(p: seq<Device>, rest: seq<Device>, r: Option<Device>, after: seq<Device>)
    requires p == [] && Yields(rest, r, after)
    ensures Yields(p + rest, r, after)
  {
    assert p + rest == rest;
  }

  lemma Regroup(a: seq<Device>, b: seq<Device>, c: seq<Device>)
    ensures (a + b) + c == a + (b + c)
  {
  }

  /** The first device found on a bus, the rest of its functions, and the rest of the bus. */
  lemma SlotsFirst(open: Probe, bus: nat, lo: nat, id: nat)
    requires lo <= id < 32 && (forall j :: lo <= j < id ==> Open(open, bus, j, 0).None?) && Open(open, bus, id, 0).Some?
    ensures Yields(Slots(open, bus, lo), Some(Device(bus, id, 0)),
                   (if Open(open, bus, id, 0).value then Functions(open, bus, id, 1) else []) + Slots(open, bus, id + 1))
  {
    SlotsSkip(open, bus, lo, id);
    var more := if Open(open, bus, id, 0).value then Functions(open, bus, id, 1) else [];
    assert Slots(open, bus, id) == ([Device(bus, id, 0)] + more) + Slots(open, bus, id + 1);
    Regroup([Device(bus, id, 0)], more, Slots(open, bus, id + 1));
  }

  lemma BusFirst(open: Probe, bus: nat, r: Option<Device>, a: seq<Device>, b: seq<Device>)
    requires bus < 256 && Yields(Slots(open, bus, 0), r, a + b) && r.Some?
    ensures Yields(Buses(open, bus), r, a + (b + Buses(open, bus + 1)))
  {
    YieldsFront(Slots(open, bus, 0), r, a + b, Buses(open, bus + 1));
    Regroup(a, b, Buses(open, bus + 1));
  }

  lemma BusSkip(open: Probe, bus: nat)
    requires bus < 256 && Slots(open, bus, 0) == []
    ensures Buses(open, bus) == Buses(open, bus + 1)
  {
    assert [] + Buses(open, bus + 1) == Buses(open, bus + 1);
  }

  lemma AllDone(open: Probe, bus: nat, id: nat)
    requires bus < 256 && Buses(open, bus) == []
    ensures Slots(open, bus, id) + Buses(open, bus + 1) == []
  {
    assert Slots(open, bus, 0) == [];
    SlotsEmpty(open, bus, 0, id);
  }

  lemma FromStart(open: Probe)
    ensures [] + (Slots(open, 0, 0) + Buses(open, 1)) == Buses(open, 0)
  {
    Regroup([], Slots(open, 0, 0), Buses(open, 1));
    assert [] + Slots(open, 0, 0) == Slots(open, 0, 0);
  }

  class DeviceIter {
    var bus: nat
    var id: nat
    var multiFunction: Option<(nat, nat, nat)>

    ghost predicate Valid()
      reads this
    {
      bus < 256 && id <= 32 && (multiFunction.Some? ==> multiFunction.value.2 <= 7)
    }

    ghost function Pending(open: Probe): (ds: seq<Device>)
      reads this
    {
      match multiFunction
      case None => []
      case Some((b, i, f)) => Functions(open, b, i, f)
    }

    ghost function Rest(open: Probe): (ds: seq<Device>)
      reads this
    {
      Slots(open, bus, id) + Buses(open, bus + 1)
    }

    /** What is still to come. */
    ghost function Remaining(open: Probe): (ds: seq<Device>)
      reads this
    {
      Pending(open) + Rest(open)
    }

    constructor (ghost open: Probe)
      ensures Valid() && bus == 0 && id == 0 && multiFunction == None
      ensures Remaining(open) == Buses(open, 0)
    {
      bus, id, multiFunction := 0, 0, None;
      new;
      FromStart(open);
    }

    /** The rest of a multi-function device, if there is any of it left. */
    method NextFunction(open: Probe) returns (r: Option<Device>)
      requires Valid()
      modifies this`multiFunction
      ensures Valid() && Yields(old(Pending(open)), r, Pending(open)) && (r.None? ==> multiFunction == None)
    {
      r := None;
      if multiFunction.Some? {
        var (b, i, f) := multiFunction.value;
        multiFunction := None;
        for func := f to 8
          invariant forall g :: f <= g < func ==> Open(open, b, i, g).None?
          invariant multiFunction == None
        {
          if Open(open, b, i, func).Some? {
            FunctionsSkip(open, b, i, f, func);
            if func < 7 {
              multiFunction := Some((b, i, func + 1));
            }
            return Some(Device(b, i, func));
          }
        }
        FunctionsSkip(open, b, i, f, 8);
      }
    }

    /** The first device at or behind `from` on bus `at`; it becomes the current one. */
    method NextSlot(open: Probe, at: nat, from: nat) returns (r: Option<Device>)
      requires Valid() && multiFunction == None && at < 256 && from <= 32
      modifies this
      ensures Valid()
      ensures r.None? ==> Slots(open, at, from) == [] && bus == old(bus) && id == old(id) && multiFunction == None
      ensures r.Some? ==> bus == at && Yields(Slots(open, at, from), r, Pending(open) + Slots(open, bus, id))
    {
      for i := from to 32
        invariant forall j :: from <= j < i ==> Open(open, at, j, 0).None?
        invariant bus == old(bus) && id == old(id) && multiFunction == None
      {
        var device := Open(open, at, i, 0);
        if device.Some? {
          SlotsFirst(open, at, from, i);
          bus, id := at, i + 1;
          if device.value {
            multiFunction := Some((at, i, 1));
          }
          return Some(Device(at, i, 0));
        }
      }
      SlotsSkip(open, at, from, 32);
      return None;
    }

    /** The first device on the buses from the current one on. */
    method NextBus(open: Probe) returns (r: Option<Device>)
      requires Valid() && multiFunction == None
      modifies this
      ensures Valid()
      ensures r.None? ==> Buses(open, old(bus)) == [] && bus == old(bus) && id == old(id) && multiFunction == None
      ensures r.Some? ==> Yields(Buses(open, old(bus)), r, Remaining(open))
    {
      for b := bus to 256
        invariant bus == old(bus) && id == old(id) && multiFunction == None
        invariant Buses(open, old(bus)) == Buses(open, b)
      {
        r := NextSlot(open, b, 0);
        if r.Some? {
          BusFirst(open, b, r, Pending(open), Slots(open, bus, id));
          return;
        }
        BusSkip(open, b);
      }
      return None;
    }

    /** What comes once no multi-function device is open. */
    method NextDevice(open: Probe) returns (r: Option<Device>)
      requires Valid() && multiFunction == None
      modifies this
      ensures Valid() && Yields(old(Rest(open)), r, Remaining(open))
    {
      ghost var slots, buses := Slots(open, bus, id), Buses(open, bus + 1);
      r := NextSlot(open, bus, id);
      if r.Some? {
        YieldsFront(slots, r, Pending(open) + Slots(open, bus, id), buses);
        Regroup(Pending(open), Slots(open, bus, id), buses);
        return;
      }
      if bus == 255 {
        return None;
      }
      bus := bus + 1;
      r := NextBus(open);
      if r.None? {
        AllDone(open, bus, id);
      }
      YieldsBack(slots, buses, r, Remaining(open));
    }

    /** Each call yields the first of the remaining devices and leaves the others; at the end it stays at the end. */
    method Next(open: Probe) returns (r: Option<Device>)
      requires Valid()
      modifies this
      ensures Valid() && Yields(old(Remaining(open)), r, Remaining(open))
    {
      ghost var pending, rest := Pending(open), Rest(open);
      r := NextFunction(open);
      if r.Some? {
        YieldsFront(pending, r, Pending(open), rest);
        return;
      }
      r := NextDevice(open);
      YieldsBack(pending, rest, r, Remaining(open));
    }
  }

  lemma Collected(ds: seq<Device>, before: seq<Device>, r: Option<Device>, after: seq<Device>, all: seq<Device>)
    requires ds + before == all && Yields(before, r, after)
    ensures r.None? ==> ds == all
    ensures r.Some? ==> (ds + [r.value]) + after == all && |after| < |before|
  {
    if r.Some? {
      assert ds + ([r.value] + after) == (ds + [r.value]) + after;
    }
  }

  /** Iterating until the end collects exactly what the nested loops would, in the same order. */
  method Enumerate(open: Probe) returns (ds: seq<Device>)
    ensures ds == Buses(open, 0)
  {
    var iter := new DeviceIter(open);
    ghost var all, left := Buses(open, 0), iter.Remaining(open);
    ds := [];
    while true
      invariant iter.Valid() && fresh(iter) && left == iter.Remaining(open) && ds + left == all
      decreases |left|
    {
      var r := iter.Next(open);
      Collected(ds, left, r, iter.Remaining(open), all);
      left := iter.Remaining(open);
      if r.None? {
        return;
      }
      ds := ds + [r.value];
    }
  }

  // --- Order and completeness -----------------------------------------------------------------------------

  /** Every existing device that can be reached is listed, and only those. */
  ghost predicate Reachable(open: Probe, d: Device) {
    && d.bus < 256 && d.id < 32 && d.func < 8 && Device(d.bus, d.id, 0) in open
    && (d.func > 0 ==> open[Device(d.bus, d.id, 0)] && d in open)
  }

  function Key(d: Device): (k: nat) {
    (d.bus * 32 + d.id) * 8 + d.func
  }

  lemma {:induction false} FunctionsExact(open: Probe, bus: nat, id: nat, func: nat, d: Device)
    ensures d in Functions(open, bus, id, func) <==>
            d.bus == bus && d.id == id && func <= d.func < 8 && Open(open, bus, id, d.func).Some?
    decreases 8 - func
  {
    if func < 8 {
      FunctionsExact(open, bus, id, func + 1, d);
    }
  }

  lemma SlotExact(open: Probe, bus: nat, id: nat, d: Device)
    requires bus < 256 && id < 32
    ensures d in Slot(open, bus, id) <==> Reachable(open, d) && d.bus == bus && d.id == id
  {
    FunctionsExact(open, bus, id, 1, d);
  }

  lemma {:induction false} SlotsExact(open: Probe, bus: nat, id: nat, d: Device)
    requires bus < 256
    ensures d in Slots(open, bus, id) <==> Reachable(open, d) && d.bus == bus && id <= d.id
    decreases 32 - id
  {
    if id < 32 {
      SlotExact(open, bus, id, d);
      SlotsExact(open, bus, id + 1, d);
    }
  }

  lemma {:induction false} BusesExact(open: Probe, bus: nat, d: Device)
    ensures d in Buses(open, bus) <==> Reachable(open, d) && bus <= d.bus
    decreases 256 - bus
  {
    if bus < 256 {
      SlotsExact(open, bus, 0, d);
      BusesExact(open, bus + 1, d);
    }
  }

  ghost predicate Before(d: Device, e: Device) {
    Key(d) < Key(e)
  }

  ghost predicate Ordered(ds: seq<Device>) {
    forall i, j {:trigger Before(ds[i], ds[j])} :: 0 <= i < j < |ds| ==> Before(ds[i], ds[j])
  }

  lemma OrderedJoin(a: seq<Device>, b: seq<Device>, bound: nat)
    requires Ordered(a) && Ordered(b)
    requires forall d :: d in a ==> Key(d) < bound
    requires forall d :: d in b ==> bound <= Key(d)
    ensures Ordered(a + b)
  {
    forall i, j | 0 <= i < j < |a + b| ensures Before((a + b)[i], (a + b)[j]) {
      if j < |a| {
        assert Before(a[i], a[j]);
      } else if |a| <= i {
        assert Before(b[i - |a|], b[j - |a|]);
      } else {
        assert a[i] in a && b[j - |a|] in b;
      }
    }
  }

  lemma {:induction false} FunctionsOrdered(open: Probe, bus: nat, id: nat, func: nat)
    ensures Ordered(Functions(open, bus, id, func))
    decreases 8 - func
  {
    if func < 8 {
      FunctionsOrdered(open, bus, id, func + 1);
      var a := if Open(open, bus, id, func).Some? then [Device(bus, id, func)] else [];
      forall d | d in Functions(open, bus, id, func + 1) ensures Key(Device(bus, id, func + 1)) <= Key(d) {
        FunctionsExact(open, bus, id, func + 1, d);
      }
      OrderedJoin(a, Functions(open, bus, id, func + 1), Key(Device(bus, id, func + 1)));
    }
  }

  lemma SlotOrdered(open: Probe, bus: nat, id: nat)
    ensures Ordered(Slot(open, bus, id))
  {
    if Open(open, bus, id, 0).Some? && Open(open, bus, id, 0).value {
      FunctionsOrdered(open, bus, id, 1);
      forall d | d in Functions(open, bus, id, 1) ensures Key(Device(bus, id, 1)) <= Key(d) {
        FunctionsExact(open, bus, id, 1, d);
      }
      OrderedJoin([Device(bus, id, 0)], Functions(open, bus, id, 1), Key(Device(bus, id, 1)));
    }
  }

  lemma {:induction false} SlotsOrdered(open: Probe, bus: nat, id: nat)
    requires bus < 256
    ensures Ordered(Slots(open, bus, id))
    decreases 32 - id
  {
    if id < 32 {
      SlotOrdered(open, bus, id);
      SlotsOrdered(open, bus, id + 1);
      var bound := Key(Device(bus, id + 1, 0));
      forall d | d in Slot(open, bus, id) ensures Key(d) < bound {
        SlotExact(open, bus, id, d);
      }
      forall d | d in Slots(open, bus, id + 1) ensures bound <= Key(d) {
        SlotsExact(open, bus, id + 1, d);
      }
      OrderedJoin(Slot(open, bus, id), Slots(open, bus, id + 1), bound);
    }
  }

  /** The devices come in strictly ascending bus, device and function order, so each comes once. */
  lemma {:induction false} BusesOrdered(open: Probe, bus: nat)
    ensures Ordered(Buses(open, bus))
    decreases 256 - bus
  {
    if bus < 256 {
      SlotsOrdered(open, bus, 0);
      BusesOrdered(open, bus + 1);
      var bound := Key(Device(bus + 1, 0, 0));
      forall d | d in Slots(open, bus, 0) ensures Key(d) < bound {
        SlotsExact(open, bus, 0, d);
      }
      forall d | d in Buses(open, bus + 1) ensures bound <= Key(d) {
        BusesExact(open, bus + 1, d);
      }
      OrderedJoin(Slots(open, bus, 0), Buses(open, bus + 1), bound);
    }
  }

  /** One device as the comment on the iterator words it: function 0 behind the others. */
  function DocumentedSlot(open: Probe, bus: nat, id: nat): (ds: seq<Device>) {
    match Open(open, bus, id, 0)
    case None => []
    case Some(multi) => (if multi then Functions(open, bus, id, 1) else []) + [Device(bus, id, 0)]
  }

  /** The comment lists the same devices, in the same order exactly if no further function answers. */
  lemma DocumentedOrder(open: Probe, bus: nat, id: nat)
    ensures multiset(DocumentedSlot(open, bus, id)) == multiset(Slot(open, bus, id))
    ensures DocumentedSlot(open, bus, id) == Slot(open, bus, id) <==>
            Open(open, bus, id, 0) != Some(true) || Functions(open, bus, id, 1) == []
  {
    var more, first := Functions(open, bus, id, 1), [Device(bus, id, 0)];
    assert multiset(more + first) == multiset(more) + multiset(first) == multiset(first + more);
    assert [] + first == first + [];
    if Open(open, bus, id, 0) == Some(true) && more != [] {
      FunctionsExact(open, bus, id, 1, more[0]);
      assert DocumentedSlot(open, bus, id)[0] == more[0];
    }
  }
}
