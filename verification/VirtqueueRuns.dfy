/**
  The virtqueue as a protocol between the driver and a conforming device.  Every interleaving
  of pushes, pops, fetches and completions in any order behaves like three lists of requests:
  posted, in flight and done.
 */
module VirtqueueRuns {
  import opened Sequences
  import opened Virtqueue
  import opened VirtqueueBlocks
  import Alignment
  import opened Options

  // --- The specification: three lists of requests ----------------------------------------------

  datatype Request<T> = Request(messages: seq<Message<T>>, data: seq<T>)

  datatype Abs<T> = Abs(done: seq<Request<T>>, flight: seq<Request<T>>, posted: seq<Request<T>>) {
    function Count(): (n: nat) { |done| + |flight| + |posted| }
  }

  /** One step of either side.  `Complete` names a request in flight and what the device writes. */
  datatype Op<T> = Push(messages: seq<Message<T>>) | Pop | Fetch | Complete(i: nat, bytes: seq<T>)

  /** What the driver sees of a step. */
  datatype Seen<T> = Pushed(ok: bool) | Got(r: PopResult<T>) | Nothing

  /** How many requests a step hands to the driver. */
  function Gotten<T>(seen: Seen<T>): (k: nat) {
    if seen.Got? && seen.r.Popped? then 1 else 0
  }

  function Posted<T>(messages: seq<Message<T>>, blank: T): (c: Request<T>) {
    Request(messages, seq(|messages|, i requires 0 <= i < |messages| => DataOf(messages[i], blank)))
  }

  /** A device may only write buffers that were posted for it to write. */
  function Written<T>(c: Request<T>, bytes: seq<T>): (c': Request<T>) {
    Request(c.messages, seq(|c.data|, i requires 0 <= i < |c.data| =>
      if i < |c.messages| && i < |bytes| && c.messages[i].DeviceWrite? then bytes[i] else c.data[i]))
  }

  function AbsStep<T>(a: Abs<T>, op: Op<T>, room: nat, blank: T): (r: (Abs<T>, Seen<T>))
  {
    match op
    case Push(messages) =>
      if a.Count() < room then (Abs(a.done, a.flight, a.posted + [Posted(messages, blank)]), Pushed(true))
      else (a, Pushed(false))
    case Pop =>
      if a.done == [] then (a, Got(Empty)) else (Abs(a.done[1..], a.flight, a.posted), Got(Popped(a.done[0].data)))
    case Fetch =>
      if a.posted == [] then (a, Nothing) else (Abs(a.done, a.flight + [a.posted[0]], a.posted[1..]), Nothing)
    case Complete(i, bytes) =>
      if i >= |a.flight| then (a, Nothing)
      else (Abs(a.done + [Written(a.flight[i], bytes)], Without(a.flight, i), a.posted), Nothing)
  }

  /** The buffers of a request as its messages ask for them. */
  ghost predicate Holds<T>(c: Request<T>, messages: seq<Message<T>>, blank: T) {
    && c.messages == messages && |c.data| == |messages|
    && forall i :: 0 <= i < |messages| ==> c.data[i] == match messages[i] case DeviceWrite => blank case DeviceRead(data, _) => data
  }

  /** A request that is posted joins the others with the data of its messages, or is refused. */
  lemma PostedHolds<T>(a: Abs<T>, messages: seq<Message<T>>, room: nat, blank: T)
    ensures
      var (a', seen) := AbsStep(a, Push(messages), room, blank);
      && seen == Pushed(|a.done| + |a.flight| + |a.posted| < room) && a'.done == a.done && a'.flight == a.flight
      && (!seen.ok ==> a' == a)
      && (seen.ok ==> |a'.posted| == |a.posted| + 1 && a'.posted[..|a.posted|] == a.posted && Holds(a'.posted[|a.posted|], messages, blank))
  {
    var (a', seen) := AbsStep(a, Push(messages), room, blank);
    if seen.ok {
      assert a'.posted[..|a.posted|] == a.posted;
    }
  }

  // --- The implementation: the queue in memory and the device's own state ------------------------

  datatype Sys<T> = Sys(q: Queue<T>, seen: nat, flight: seq<nat>)

  function Scatter<T>(data: seq<T>, desc: seq<Desc>, ids: seq<nat>, bytes: seq<T>): (r: seq<T>)
    requires |ids| == |bytes| && |data| == |desc| && forall i :: 0 <= i < |ids| ==> ids[i] < |data|
    ensures |r| == |data|
  {
    if ids == [] then data
    else
      var k := |ids| - 1;
      var r := Scatter(data, desc, ids[..k], bytes[..k]);
      if desc[ids[k]].write then r[ids[k] := bytes[k]] else r
  }

  /** The device takes the next head off the ring of available chains. */
  function DeviceFetch<T>(s: Sys<T>): (r: Sys<T>)
    requires Shaped(s.q)
  {
    if s.q.availIdx == s.seen % 0x1_0000 then s
    else Sys(s.q, s.seen + 1, s.flight + [s.q.ring[Slot(s.seen, |s.q.ring|)]])
  }

  /** The device follows a chain by its NEXT flags, writes the buffers marked WRITE, and reports it used. */
  function DeviceComplete<T>(s: Sys<T>, i: nat, bytes: seq<T>): (r: Sys<T>)
    requires Shaped(s.q)
  {
    if i >= |s.flight| then s
    else
      var q := s.q;
      match Chain(q.desc, s.flight[i], |q.desc|)
      case None => s
      case Some(ids) =>
        if |ids| != |bytes| then s
        else
          Sys(Queue(q.desc, Scatter(q.data, q.desc, ids, bytes), q.free, q.ring, q.availIdx,
                    q.used[Slot(q.usedIdx, |q.used|) := s.flight[i]], (q.usedIdx + 1) % 0x1_0000, q.popIndex),
              s.seen, Without(s.flight, i))
  }

  function Step<T>(s: Sys<T>, op: Op<T>, n: nat, size: nat, blank: T): (r: (Sys<T>, Seen<T>))
    requires Shaped(s.q) && (op.Push? ==> op.messages != [])
    ensures Shaped(r.0.q) && |r.0.q.desc| == |s.q.desc|
  {
    match op
    case Push(messages) =>
      var (q, ok) := Virtqueue.Push(s.q, messages, size, blank);
      (Sys(q, s.seen, s.flight), Pushed(ok))
    case Pop =>
      var (q, r) := Virtqueue.Pop(s.q, n);
      (Sys(q, s.seen, s.flight), Got(r))
    case Fetch => (DeviceFetch(s), Nothing)
    case Complete(i, bytes) => (DeviceComplete(s, i, bytes), Nothing)
  }

  // --- The relation between the two ---------------------------------------------------------------

  /** Which request each outstanding chain head stands for, and the heads in the order of the lists. */
  datatype Book<T> = Book(chains: map<nat, Request<T>>, done: seq<nat>, flight: seq<nat>, posted: seq<nat>) {
    ghost function Order(): (r: seq<nat>) { done + flight + posted }
  }

  ghost predicate Geometry<T>(q: Queue<T>, n: nat) {
    && Shaped(q) && 0 < n <= |q.desc| < 0x1_0000 && 0x1_0000 % |q.desc| == 0
    && |q.desc| == |q.data| == |q.free| == |q.ring| == |q.used|
  }

  ghost predicate Booked<T>(b: Book<T>) {
    Distinct(b.Order()) && forall h :: h in b.chains <==> h in b.Order()
  }

  ghost predicate CellOk<T>(q: Queue<T>, n: nat, size: nat, h: nat, c: Request<T>, i: nat)
    requires Shaped(q) && i < n && h + n <= |q.desc| && |c.messages| == |c.data| == n
  {
    && q.data[h + i] == c.data[i]
    && q.desc[h + i] == Desc(LenOf(c.messages[i], size), if i < n - 1 then h + i + 1 else 0, i < n - 1, c.messages[i].DeviceWrite?)
  }

  /** The descriptors of a chain are a block and hold the request, in message order. */
  ghost predicate ChainOk<T>(q: Queue<T>, n: nat, size: nat, h: nat, c: Request<T>)
    requires Shaped(q) && n > 0
  {
    && IsBlock(h, n, |q.desc|) && |c.messages| == |c.data| == n
    && (forall i {:trigger CellOk(q, n, size, h, c, i)} :: 0 <= i < n ==> CellOk(q, n, size, h, c, i))
  }

  /** Descriptors that can end a chain, or be in none, have a zero link. */
  ghost predicate LastZero(desc: seq<Desc>, n: nat)
    requires n > 0
  {
    forall d {:trigger desc[d]} :: 0 <= d < |desc| && (d == Start(d, n) + n - 1 || Start(d, n) + n > |desc|) ==> desc[d].next == 0
  }

  ghost predicate TableOk<T>(q: Queue<T>, n: nat, size: nat, chains: map<nat, Request<T>>)
    requires Geometry(q, n)
  {
    && (forall h {:trigger ChainOk(q, n, size, h, chains[h])} :: h in chains ==> ChainOk(q, n, size, h, chains[h]))
    && FreeOk(q.free, n, chains.Keys)
    && LastZero(q.desc, n)
  }

  /** The entries of a ring from a running count on. */
  ghost predicate RingOk(ring: seq<nat>, from: nat, heads: seq<nat>) {
    0 < |ring| && forall j {:trigger heads[j]} :: 0 <= j < |heads| ==> ring[Slot(from + j, |ring|)] == heads[j]
  }

  ghost predicate RingsOk<T>(s: Sys<T>, b: Book<T>) {
    && s.flight == b.flight && s.seen == s.q.popIndex + |b.done| + |b.flight|
    && RingOk(s.q.used, s.q.popIndex, b.done) && RingOk(s.q.ring, s.seen, b.posted)
    && s.q.usedIdx == (s.q.popIndex + |b.done|) % 0x1_0000
    && s.q.availIdx == (s.seen + |b.posted|) % 0x1_0000
  }

  ghost predicate Rel<T>(s: Sys<T>, n: nat, size: nat, b: Book<T>) {
    Geometry(s.q, n) && Booked(b) && TableOk(s.q, n, size, b.chains) && RingsOk(s, b)
  }

  ghost function Requests<T>(chains: map<nat, Request<T>>, heads: seq<nat>): (r: seq<Request<T>>)
    requires forall h :: h in heads ==> h in chains
  {
    seq(|heads|, i requires 0 <= i < |heads| => chains[heads[i]])
  }

  ghost function View<T>(b: Book<T>): (a: Abs<T>)
    requires Booked(b)
  {
    OrderParts(b);
    Abs(Requests(b.chains, b.done), Requests(b.chains, b.flight), Requests(b.chains, b.posted))
  }

  lemma OrderParts<T>(b: Book<T>)
    ensures forall h :: h in b.Order() <==> h in b.done || h in b.flight || h in b.posted
  {
  }

  // --- Counts that wrap ----------------------------------------------------------------------------

  lemma SlotsDiffer(x: nat, y: nat, size: nat)
    requires size > 0 && x < y < x + size
    ensures Slot(x, size) != Slot(y, size)
  {
    var q, r := x / size, x % size;
    Alignment.DivModOf(x, size);
    var k := y - x;
    if r + k < size {
      Alignment.DivModUnique(y, size, q, r + k);
    } else {
      assert (q + 1) * size == q * size + size;
      Alignment.DivModUnique(y, size, q + 1, r + k - size);
    }
  }

  lemma Compose(k: nat, m: nat, q: nat, size: nat)
    ensures k * (m * size) + q * size == (k * m + q) * size
  {
    assert k * (m * size) == (k * m) * size;
  }

  /** A 16-bit count falls on the same slot as the full one if the size divides 65,536. */
  lemma SlotWrap(count: nat, size: nat)
    requires size > 0 && 0x1_0000 % size == 0
    ensures Slot(count % 0x1_0000, size) == Slot(count, size)
  {
    var m, r := 0x1_0000 / size, count % 0x1_0000;
    var k := count / 0x1_0000;
    Alignment.DivModOf(0x1_0000, size);
    Alignment.DivModOf(r, size);
    Compose(k, m, r / size, size);
    Alignment.DivModUnique(count, size, k * m + r / size, r % size);
  }

  lemma WrapStep(count: nat)
    ensures (count % 0x1_0000 + 1) % 0x1_0000 == (count + 1) % 0x1_0000
  {
  }

  lemma RingAppend(ring: seq<nat>, from: nat, heads: seq<nat>, h: nat)
    requires RingOk(ring, from, heads) && |heads| < |ring|
    ensures RingOk(ring[Slot(from + |heads|, |ring|) := h], from, heads + [h])
  {
    var ring' := ring[Slot(from + |heads|, |ring|) := h];
    forall j | 0 <= j < |heads + [h]| ensures ring'[Slot(from + j, |ring'|)] == (heads + [h])[j] {
      if j < |heads| {
        assert heads[j] == (heads + [h])[j];
        SlotsDiffer(from + j, from + |heads|, |ring|);
      }
    }
  }

  lemma RingDrop(ring: seq<nat>, from: nat, heads: seq<nat>)
    requires RingOk(ring, from, heads) && heads != []
    ensures ring[Slot(from, |ring|)] == heads[0] && RingOk(ring, from + 1, heads[1..])
  {
    assert heads[0] == ring[Slot(from + 0, |ring|)];
    forall j | 0 <= j < |heads[1..]| ensures ring[Slot(from + 1 + j, |ring|)] == heads[1..][j] {
      assert heads[1..][j] == heads[j + 1];
      assert from + 1 + j == from + (j + 1);
    }
  }

  /** A 16-bit count never equals a full one that is below it by less than 65,536, but not by nothing. */
  lemma WrapBehind(popped: nat, waiting: nat)
    requires 0 < waiting < 0x1_0000
    ensures (popped + waiting) % 0x1_0000 != popped
  {
    if popped + waiting >= 0x1_0000 {
      assert popped < 0x1_0000 ==> (popped + waiting) % 0x1_0000 == popped + waiting - 0x1_0000;
    }
  }

  // --- Push keeps the relation ---------------------------------------------------------------------

  /** What a successful push does to the queue, its block given. */
  ghost predicate PushOf<T>(q: Queue<T>, n: nat, size: nat, blank: T, messages: seq<Message<T>>, h: nat, q': Queue<T>) {
    && Geometry(q, n) && |messages| == n && IsBlock(h, n, |q.desc|)
    && Grab(q.free, n).0 == Range(h, n) && (q', true) == Virtqueue.Push(q, messages, size, blank)
  }

  lemma PushElsewhere<T>(q: Queue<T>, n: nat, size: nat, blank: T, messages: seq<Message<T>>, h: nat, q': Queue<T>, d: nat)
    requires PushOf(q, n, size, blank, messages, h, q') && d < |q.desc| && !(h <= d < h + n)
    ensures q'.desc[d] == q.desc[d] && q'.data[d] == q.data[d]
  {
    FilledElsewhere(q.desc, q.data, messages, Range(h, n), size, blank, n, d);
  }

  lemma PushInside<T>(q: Queue<T>, n: nat, size: nat, blank: T, messages: seq<Message<T>>, h: nat, q': Queue<T>, i: nat)
    requires PushOf(q, n, size, blank, messages, h, q') && i < n
    ensures q'.data[h + i] == DataOf(messages[i], blank)
    ensures q'.desc[h + i] == Desc(LenOf(messages[i], size), if i < n - 1 then h + i + 1 else q.desc[h + i].next,
                                   i < n - 1, messages[i].DeviceWrite?)
  {
    PushLinkAt(q, messages, size, blank, Range(h, n), i);
  }

  lemma PushNewChain<T>(q: Queue<T>, n: nat, size: nat, blank: T, messages: seq<Message<T>>, h: nat, q': Queue<T>)
    requires PushOf(q, n, size, blank, messages, h, q') && LastZero(q.desc, n)
    ensures ChainOk(q', n, size, h, Posted(messages, blank))
  {
    var c := Posted(messages, blank);
    forall i | 0 <= i < n ensures CellOk(q', n, size, h, c, i) {
      PushInside(q, n, size, blank, messages, h, q', i);
      StartIs(h, h + i, n);
    }
  }

  lemma PushOldChain<T>(q: Queue<T>, n: nat, size: nat, blank: T, messages: seq<Message<T>>, h: nat, q': Queue<T>, g: nat, c: Request<T>)
    requires PushOf(q, n, size, blank, messages, h, q') && ChainOk(q, n, size, g, c) && g != h
    ensures ChainOk(q', n, size, g, c)
  {
    forall i | 0 <= i < n ensures CellOk(q', n, size, g, c, i) {
      assert CellOk(q, n, size, g, c, i);
      StartIs(g, g + i, n);
      if h <= g + i < h + n {
        StartIs(h, g + i, n);
      }
      PushElsewhere(q, n, size, blank, messages, h, q', g + i);
    }
  }

  lemma PushLastZero<T>(q: Queue<T>, n: nat, size: nat, blank: T, messages: seq<Message<T>>, h: nat, q': Queue<T>)
    requires PushOf(q, n, size, blank, messages, h, q') && LastZero(q.desc, n)
    ensures LastZero(q'.desc, n)
  {
    forall d | 0 <= d < |q'.desc| && (d == Start(d, n) + n - 1 || Start(d, n) + n > |q'.desc|) ensures q'.desc[d].next == 0 {
      assert q.desc[d].next == 0;
      if h <= d < h + n {
        StartIs(h, d, n);
        PushInside(q, n, size, blank, messages, h, q', d - h);
      } else {
        PushElsewhere(q, n, size, blank, messages, h, q', d);
      }
    }
  }

  lemma PushTable<T>(q: Queue<T>, n: nat, size: nat, blank: T, messages: seq<Message<T>>, chains: map<nat, Request<T>>)
    returns (h: nat)
    requires Geometry(q, n) && TableOk(q, n, size, chains) && |messages| == n && First(q.free) + n <= |q.free|
    ensures h !in chains && PushOf(q, n, size, blank, messages, h, Virtqueue.Push(q, messages, size, blank).0)
    ensures Geometry(Virtqueue.Push(q, messages, size, blank).0, n)
    ensures TableOk(Virtqueue.Push(q, messages, size, blank).0, n, size, chains[h := Posted(messages, blank)])
  {
    h := First(q.free);
    var q' := Virtqueue.Push(q, messages, size, blank).0;
    GrabLowestBlock(q.free, n, chains.Keys);
    assert PushOf(q, n, size, blank, messages, h, q');
    var chains' := chains[h := Posted(messages, blank)];
    assert chains'.Keys == chains.Keys + {h};
    PushLastZero(q, n, size, blank, messages, h, q');
    PushNewChain(q, n, size, blank, messages, h, q');
    forall g | g in chains' ensures ChainOk(q', n, size, g, chains'[g]) {
      if g != h {
        assert ChainOk(q, n, size, g, chains[g]);
        PushOldChain(q, n, size, blank, messages, h, q', g, chains[g]);
      }
    }
  }

  /** Outstanding chains fill at most the table's blocks, and a push fails exactly when they fill them. */
  lemma RoomLeft<T>(s: Sys<T>, n: nat, size: nat, b: Book<T>)
    requires Rel(s, n, size, b)
    ensures First(s.q.free) + n <= |s.q.free| <==> |b.Order()| < Blocks(|s.q.desc|, n)
    ensures |b.Order()| <= Blocks(|s.q.desc|, n) <= |s.q.desc|
  {
    forall h | h in b.Order() ensures IsBlock(h, n, |s.q.free|) {
      assert ChainOk(s.q, n, size, h, b.chains[h]);
    }
    FirstFits(s.q.free, n, b.chains.Keys, b.Order());
  }

  lemma PushRefines<T>(s: Sys<T>, n: nat, size: nat, blank: T, b: Book<T>, messages: seq<Message<T>>) returns (b': Book<T>)
    requires Rel(s, n, size, b) && |messages| == n
    ensures
      var (s', seen) := Step(s, Push(messages), n, size, blank);
      && Rel(s', n, size, b')
      && (View(b'), seen) == AbsStep(View(b), Push(messages), Blocks(|s.q.desc|, n), blank)
  {
    RoomLeft(s, n, size, b);
    if First(s.q.free) + n <= |s.q.free| {
      var h := PushTable(s.q, n, size, blank, messages, b.chains);
      b' := Book(b.chains[h := Posted(messages, blank)], b.done, b.flight, b.posted + [h]);
      PushRings(s, n, size, blank, messages, b, h);
      BookPosted(b, h, Posted(messages, blank));
    } else {
      b' := b;
      GrabLowestBlock(s.q.free, n, b.chains.Keys);
    }
  }

  lemma PushRings<T>(s: Sys<T>, n: nat, size: nat, blank: T, messages: seq<Message<T>>, b: Book<T>, h: nat)
    requires Geometry(s.q, n) && RingsOk(s, b) && |b.Order()| < |s.q.desc| && |messages| == n
    requires PushOf(s.q, n, size, blank, messages, h, Virtqueue.Push(s.q, messages, size, blank).0)
    ensures RingsOk(Sys(Virtqueue.Push(s.q, messages, size, blank).0, s.seen, s.flight),
                    Book(b.chains[h := Posted(messages, blank)], b.done, b.flight, b.posted + [h]))
  {
    SlotWrap(s.seen + |b.posted|, |s.q.ring|);
    RingAppend(s.q.ring, s.seen, b.posted, h);
    WrapStep(s.seen + |b.posted|);
    assert Range(h, n)[0] == h;
  }

  lemma BookPosted<T>(b: Book<T>, h: nat, c: Request<T>)
    requires Booked(b) && h !in b.chains
    ensures
      var b' := Book(b.chains[h := c], b.done, b.flight, b.posted + [h]);
      && Booked(b') && View(b') == Abs(View(b).done, View(b).flight, View(b).posted + [c])
  {
    var b' := Book(b.chains[h := c], b.done, b.flight, b.posted + [h]);
    assert b'.Order() == b.Order() + [h];
    DistinctFresh(b.Order(), h);
    OrderParts(b);
    assert Booked(b');
    assert View(b').done == View(b).done && View(b').flight == View(b).flight;
    assert View(b').posted == View(b).posted + [c];
  }

  // --- Pop keeps the relation ----------------------------------------------------------------------

  /** A chain in the table is followed to its end and no further, by the driver and by the device. */
  lemma ChainFollowed<T>(q: Queue<T>, n: nat, size: nat, h: nat, c: Request<T>)
    requires Geometry(q, n) && ChainOk(q, n, size, h, c)
    ensures Walk(q.desc, h, n) == Some(Range(h, n)) && Chain(q.desc, h, |q.desc|) == Some(Range(h, n))
  {
    var ids := Range(h, n);
    assert ids[0] == h;
    forall i | 0 <= i < n ensures LinkAt(q.desc, ids, i) {
      assert CellOk(q, n, size, h, c, i);
    }
    assert CellOk(q, n, size, h, c, n - 1);
    ChainIs(q.desc, ids, |q.desc|);
    WalkIsIff(q.desc, ids);
  }

  lemma ChainGathered<T>(q: Queue<T>, n: nat, size: nat, h: nat, c: Request<T>)
    requires Geometry(q, n) && ChainOk(q, n, size, h, c)
    ensures Gather(q.data, Range(h, n)) == c.data
  {
    forall i | 0 <= i < n ensures Gather(q.data, Range(h, n))[i] == c.data[i] {
      assert CellOk(q, n, size, h, c, i);
    }
  }

  /** A chain depends on its descriptors and buffers only. */
  lemma ChainKept<T>(q: Queue<T>, q': Queue<T>, n: nat, size: nat, h: nat, c: Request<T>)
    requires Geometry(q, n) && Geometry(q', n) && ChainOk(q, n, size, h, c) && q'.desc == q.desc
    requires forall d :: h <= d < h + n ==> q'.data[d] == q.data[d]
    ensures ChainOk(q', n, size, h, c)
  {
    forall i | 0 <= i < n ensures CellOk(q', n, size, h, c, i) {
      assert CellOk(q, n, size, h, c, i);
    }
  }

  lemma PopTable<T>(q: Queue<T>, n: nat, size: nat, chains: map<nat, Request<T>>, h: nat, q': Queue<T>)
    requires Geometry(q, n) && Geometry(q', n) && TableOk(q, n, size, chains) && h in chains && h + n <= |q.desc|
    requires q'.desc == q.desc && q'.data == q.data && q'.free == GiveBack(q.free, Range(h, n))
    ensures TableOk(q', n, size, chains - {h})
  {
    assert ChainOk(q, n, size, h, chains[h]);
    assert (chains - {h}).Keys == chains.Keys - {h};
    GiveBackBlock(q.free, n, chains.Keys, h);
    forall g | g in chains - {h} ensures ChainOk(q', n, size, g, (chains - {h})[g]) {
      assert ChainOk(q, n, size, g, chains[g]);
      ChainKept(q, q', n, size, g, chains[g]);
    }
  }

  lemma BookPopped<T>(b: Book<T>)
    requires Booked(b) && b.done != []
    ensures
      var b' := Book(b.chains - {b.done[0]}, b.done[1..], b.flight, b.posted);
      && Booked(b') && View(b') == Abs(View(b).done[1..], View(b).flight, View(b).posted)
  {
    var h := b.done[0];
    var b' := Book(b.chains - {h}, b.done[1..], b.flight, b.posted);
    assert b.Order() == [h] + b'.Order();
    DistinctParts([h], b'.Order());
    assert h in [h];
    OrderParts(b);
    OrderParts(b');
    assert Booked(b');
    assert View(b').flight == View(b).flight && View(b').posted == View(b).posted;
    assert View(b').done == View(b).done[1..];
  }

  lemma PopRefines<T>(s: Sys<T>, n: nat, size: nat, blank: T, b: Book<T>) returns (b': Book<T>)
    requires Rel(s, n, size, b) && (s.q.popIndex < 0x1_0000 || b.done != [])
    ensures
      var (s', seen) := Step(s, Pop, n, size, blank);
      && Rel(s', n, size, b') && s'.q.popIndex == s.q.popIndex + Gotten(seen)
      && (View(b'), seen) == AbsStep(View(b), Pop, Blocks(|s.q.desc|, n), blank)
  {
    if b.done == [] {
      b' := b;
      PopNone(s, n, size, blank, b);
    } else {
      b' := Book(b.chains - {b.done[0]}, b.done[1..], b.flight, b.posted);
      PopSome(s, n, size, blank, b, b');
    }
  }

  lemma PopNone<T>(s: Sys<T>, n: nat, size: nat, blank: T, b: Book<T>)
    requires Rel(s, n, size, b) && s.q.popIndex < 0x1_0000 && b.done == []
    ensures Step(s, Pop, n, size, blank) == (s, Got(Empty)) && View(b).done == []
  {
  }

  lemma PopSome<T>(s: Sys<T>, n: nat, size: nat, blank: T, b: Book<T>, b': Book<T>)
    requires Rel(s, n, size, b) && b.done != [] && b' == Book(b.chains - {b.done[0]}, b.done[1..], b.flight, b.posted)
    ensures
      var (s', seen) := Step(s, Pop, n, size, blank);
      && Rel(s', n, size, b') && s'.q.popIndex == s.q.popIndex + 1
      && View(b).done != [] && seen == Got(Popped(View(b).done[0].data))
      && View(b') == Abs(View(b).done[1..], View(b).flight, View(b).posted)
  {
    var h := b.done[0];
    RoomLeft(s, n, size, b);
    OrderParts(b);
    assert ChainOk(s.q, n, size, h, b.chains[h]);
    PopOne(s, n, size, b);
    BookPopped(b);
    PopTable(s.q, n, size, b.chains, h, Virtqueue.Pop(s.q, n).0);
  }

  /** With a completion waiting, `pop` returns its buffers, frees its block and moves on. */
  lemma PopOne<T>(s: Sys<T>, n: nat, size: nat, b: Book<T>)
    requires Geometry(s.q, n) && RingsOk(s, b) && b.done != [] && b.done[0] in b.chains && |b.done| < 0x1_0000
    requires ChainOk(s.q, n, size, b.done[0], b.chains[b.done[0]])
    ensures
      var (q, r) := Virtqueue.Pop(s.q, n);
      && r == Popped(b.chains[b.done[0]].data)
      && q == Queue(s.q.desc, s.q.data, GiveBack(s.q.free, Range(b.done[0], n)), s.q.ring, s.q.availIdx,
                    s.q.used, s.q.usedIdx, s.q.popIndex + 1)
      && RingsOk(Sys(q, s.seen, s.flight), Book(b.chains - {b.done[0]}, b.done[1..], b.flight, b.posted))
  {
    RingDrop(s.q.used, s.q.popIndex, b.done);
    ChainFollowed(s.q, n, size, b.done[0], b.chains[b.done[0]]);
    ChainGathered(s.q, n, size, b.done[0], b.chains[b.done[0]]);
    WrapBehind(s.q.popIndex, |b.done|);
  }

  /**
    `pop` compares a 16-bit index with a full one: it answers as it should exactly while fewer
    than 65,536 chains were popped, or a completion waits.
   */
  lemma PopRightIff<T>(s: Sys<T>, n: nat, size: nat, blank: T, b: Book<T>)
    requires Rel(s, n, size, b)
    ensures Step(s, Pop, n, size, blank).1 == AbsStep(View(b), Pop, Blocks(|s.q.desc|, n), blank).1 <==>
            s.q.popIndex < 0x1_0000 || b.done != []
  {
    if s.q.popIndex < 0x1_0000 || b.done != [] {
      var b' := PopRefines(s, n, size, blank, b);
    } else {
      assert s.q.usedIdx == s.q.popIndex % 0x1_0000 < s.q.popIndex;
    }
  }

  // --- The device keeps the relation ---------------------------------------------------------------

  lemma BookFetched<T>(b: Book<T>)
    requires Booked(b) && b.posted != []
    ensures
      var b' := Book(b.chains, b.done, b.flight + [b.posted[0]], b.posted[1..]);
      && Booked(b') && View(b') == Abs(View(b).done, View(b).flight + [View(b).posted[0]], View(b).posted[1..])
  {
    var b' := Book(b.chains, b.done, b.flight + [b.posted[0]], b.posted[1..]);
    assert b'.Order() == b.Order();
    assert View(b').flight == View(b).flight + [View(b).posted[0]];
    assert View(b').posted == View(b).posted[1..];
  }

  lemma FetchRefines<T>(s: Sys<T>, n: nat, size: nat, blank: T, b: Book<T>) returns (b': Book<T>)
    requires Rel(s, n, size, b)
    ensures
      var (s', seen) := Step(s, Fetch, n, size, blank);
      && Rel(s', n, size, b') && s'.q == s.q
      && (View(b'), seen) == AbsStep(View(b), Fetch, Blocks(|s.q.desc|, n), blank)
  {
    RoomLeft(s, n, size, b);
    FetchRings(s, n, b);
    if b.posted == [] {
      b' := b;
    } else {
      b' := Book(b.chains, b.done, b.flight + [b.posted[0]], b.posted[1..]);
      BookFetched(b);
    }
  }

  lemma FetchRings<T>(s: Sys<T>, n: nat, b: Book<T>)
    requires Geometry(s.q, n) && RingsOk(s, b) && |b.posted| < 0x1_0000
    ensures DeviceFetch(s).q == s.q && (b.posted == [] ==> DeviceFetch(s) == s)
    ensures b.posted != [] ==> RingsOk(DeviceFetch(s), Book(b.chains, b.done, b.flight + [b.posted[0]], b.posted[1..]))
  {
    WrapDiffers(s.seen, |b.posted|);
    if b.posted != [] {
      RingDrop(s.q.ring, s.seen, b.posted);
    }
  }

  lemma WrapDiffers(x: nat, k: nat)
    requires k < 0x1_0000
    ensures (x + k) % 0x1_0000 == x % 0x1_0000 <==> k == 0
  {
  }

  lemma {:induction false} ScatterExact<T>(data: seq<T>, desc: seq<Desc>, h: nat, n: nat, bytes: seq<T>, d: nat)
    requires |bytes| == n && |data| == |desc| && h + n <= |desc| && d < |desc|
    ensures Scatter(data, desc, Range(h, n), bytes)[d] ==
            if h <= d < h + n && desc[d].write then bytes[d - h] else data[d]
    decreases n
  {
    if n > 0 {
      assert Range(h, n)[..n - 1] == Range(h, n - 1);
      ScatterExact(data, desc, h, n - 1, bytes[..n - 1], d);
    }
  }

  lemma CompleteTable<T>(q: Queue<T>, n: nat, size: nat, chains: map<nat, Request<T>>, h: nat, bytes: seq<T>, q': Queue<T>)
    requires Geometry(q, n) && Geometry(q', n) && TableOk(q, n, size, chains) && h in chains && |bytes| == n
    requires |chains[h].messages| == |chains[h].data| == n && h + n <= |q.desc|
    requires q'.desc == q.desc && q'.free == q.free && q'.data == Scatter(q.data, q.desc, Range(h, n), bytes)
    ensures TableOk(q', n, size, chains[h := Written(chains[h], bytes)])
  {
    var c := Written(chains[h], bytes);
    assert ChainOk(q, n, size, h, chains[h]);
    assert chains[h := c].Keys == chains.Keys;
    forall i | 0 <= i < n ensures CellOk(q', n, size, h, c, i) {
      assert CellOk(q, n, size, h, chains[h], i);
      ScatterExact(q.data, q.desc, h, n, bytes, h + i);
    }
    forall g | g in chains && g != h ensures ChainOk(q', n, size, g, chains[g]) {
      assert ChainOk(q, n, size, g, chains[g]);
      forall d | g <= d < g + n ensures q'.data[d] == q.data[d] {
        StartIs(g, d, n);
        if h <= d < h + n {
          StartIs(h, d, n);
        }
        ScatterExact(q.data, q.desc, h, n, bytes, d);
      }
      ChainKept(q, q', n, size, g, chains[g]);
    }
  }

  lemma DistinctMoved(done: seq<nat>, flight: seq<nat>, posted: seq<nat>, i: nat)
    requires i < |flight| && Distinct(done + flight + posted)
    ensures Distinct(done + [flight[i]] + Without(flight, i) + posted)
    ensures forall h :: h in done + flight + posted <==> h in done + [flight[i]] + Without(flight, i) + posted
    ensures flight[i] !in done && flight[i] !in Without(flight, i) && flight[i] !in posted
  {
    var h, f, g := flight[i], flight[..i], flight[i + 1..];
    assert flight == f + [h] + g;
    assert done + flight + posted == (done + f) + ([h] + (g + posted));
    DistinctParts(done + f, [h] + (g + posted));
    DistinctParts(done, f);
    DistinctParts([h], g + posted);
    assert h in [h] && h in [h] + (g + posted);
    DistinctAppend([h], f);
    assert forall x :: x in done || x in f ==> x in done + f;
    assert forall x :: x in g + posted ==> x in [h] + (g + posted);
    DistinctAppend(done, [h] + f);
    DistinctAppend(done + ([h] + f), g + posted);
    assert done + [h] + Without(flight, i) + posted == done + ([h] + f) + (g + posted);
  }

  lemma BookCompleted<T>(b: Book<T>, i: nat, c: Request<T>)
    requires Booked(b) && i < |b.flight|
    ensures
      var h := b.flight[i];
      var b' := Book(b.chains[h := c], b.done + [h], Without(b.flight, i), b.posted);
      && Booked(b') && View(b') == Abs(View(b).done + [c], Without(View(b).flight, i), View(b).posted)
  {
    var h := b.flight[i];
    var b' := Book(b.chains[h := c], b.done + [h], Without(b.flight, i), b.posted);
    DistinctMoved(b.done, b.flight, b.posted, i);
    assert h in b.flight;
    OrderParts(b);
    assert Booked(b');
    assert View(b').posted == View(b).posted;
    assert View(b').done == View(b).done + [c];
    assert View(b').flight == Without(View(b).flight, i);
  }

  lemma CompleteRefines<T>(s: Sys<T>, n: nat, size: nat, blank: T, b: Book<T>, i: nat, bytes: seq<T>) returns (b': Book<T>)
    requires Rel(s, n, size, b) && |bytes| == n
    ensures
      var (s', seen) := Step(s, Complete(i, bytes), n, size, blank);
      && Rel(s', n, size, b') && s'.q.popIndex == s.q.popIndex
      && (View(b'), seen) == AbsStep(View(b), Complete(i, bytes), Blocks(|s.q.desc|, n), blank)
  {
    if i >= |b.flight| {
      b' := b;
    } else {
      var h := b.flight[i];
      assert h in b.flight;
      OrderParts(b);
      RoomLeft(s, n, size, b);
      assert ChainOk(s.q, n, size, h, b.chains[h]);
      b' := Book(b.chains[h := Written(b.chains[h], bytes)], b.done + [h], Without(b.flight, i), b.posted);
      BookCompleted(b, i, Written(b.chains[h], bytes));
      CompleteOne(s, n, size, b, i, bytes, b');
      CompleteTable(s.q, n, size, b.chains, h, bytes, DeviceComplete(s, i, bytes).q);
    }
  }

  lemma CompleteOne<T>(s: Sys<T>, n: nat, size: nat, b: Book<T>, i: nat, bytes: seq<T>, b': Book<T>)
    requires Geometry(s.q, n) && RingsOk(s, b) && |b.done| < |s.q.desc| && i < |b.flight| && |bytes| == n
    requires b.flight[i] in b.chains && ChainOk(s.q, n, size, b.flight[i], b.chains[b.flight[i]])
    requires b'.done == b.done + [b.flight[i]] && b'.flight == Without(b.flight, i) && b'.posted == b.posted
    ensures
      var q := DeviceComplete(s, i, bytes).q;
      && RingsOk(DeviceComplete(s, i, bytes), b') && Geometry(q, n) && q.popIndex == s.q.popIndex
      && q.desc == s.q.desc && q.free == s.q.free && q.data == Scatter(s.q.data, s.q.desc, Range(b.flight[i], n), bytes)
  {
    ChainFollowed(s.q, n, size, b.flight[i], b.chains[b.flight[i]]);
    CompleteRing(s, n, b, b.flight[i]);
  }

  lemma CompleteRing<T>(s: Sys<T>, n: nat, b: Book<T>, h: nat)
    requires Geometry(s.q, n) && RingsOk(s, b) && |b.done| < |s.q.desc|
    ensures RingOk(s.q.used[Slot(s.q.usedIdx, |s.q.used|) := h], s.q.popIndex, b.done + [h])
    ensures (s.q.usedIdx + 1) % 0x1_0000 == (s.q.popIndex + |b.done| + 1) % 0x1_0000
  {
    SlotWrap(s.q.popIndex + |b.done|, |s.q.used|);
    RingAppend(s.q.used, s.q.popIndex, b.done, h);
    WrapStep(s.q.popIndex + |b.done|);
  }

  // --- Runs ------------------------------------------------------------------------------------------

  /** Every chain has `n` messages. */
  ghost predicate OpOk<T>(op: Op<T>, n: nat) {
    (op.Push? ==> |op.messages| == n) && (op.Complete? ==> |op.bytes| == n)
  }

  ghost predicate OpsOk<T>(ops: seq<Op<T>>, n: nat) {
    forall i {:trigger OpOk(ops[i], n)} :: 0 <= i < |ops| ==> OpOk(ops[i], n)
  }

  function Run<T>(s: Sys<T>, ops: seq<Op<T>>, n: nat, size: nat, blank: T): (r: (Sys<T>, seq<Seen<T>>))
    requires Shaped(s.q) && forall i :: 0 <= i < |ops| && ops[i].Push? ==> ops[i].messages != []
    ensures Shaped(r.0.q) && |r.0.q.desc| == |s.q.desc| && |r.1| == |ops|
    decreases |ops|
  {
    if ops == [] then (s, [])
    else
      var (s1, seen) := Step(s, ops[0], n, size, blank);
      var (s2, more) := Run(s1, ops[1..], n, size, blank);
      (s2, [seen] + more)
  }

  function AbsRun<T>(a: Abs<T>, ops: seq<Op<T>>, room: nat, blank: T): (r: (Abs<T>, seq<Seen<T>>))
    decreases |ops|
  {
    if ops == [] then (a, [])
    else
      var (a1, seen) := AbsStep(a, ops[0], room, blank);
      var (a2, more) := AbsRun(a1, ops[1..], room, blank);
      (a2, [seen] + more)
  }

  lemma StepRefines<T>(s: Sys<T>, n: nat, size: nat, blank: T, b: Book<T>, op: Op<T>) returns (b': Book<T>)
    requires Rel(s, n, size, b) && OpOk(op, n) && (op.Pop? ==> s.q.popIndex < 0x1_0000 || b.done != [])
    ensures
      var (s', seen) := Step(s, op, n, size, blank);
      && Rel(s', n, size, b') && s'.q.popIndex == s.q.popIndex + Gotten(seen)
      && (View(b'), seen) == AbsStep(View(b), op, Blocks(|s.q.desc|, n), blank)
  {
    match op
    case Push(messages) => b' := PushRefines(s, n, size, blank, b, messages);
    case Pop => b' := PopRefines(s, n, size, blank, b);
    case Fetch => b' := FetchRefines(s, n, size, blank, b);
    case Complete(i, bytes) => b' := CompleteRefines(s, n, size, blank, b, i, bytes);
  }

  lemma OpsTail<T>(ops: seq<Op<T>>, n: nat)
    requires ops != [] && OpsOk(ops, n) && n > 0
    ensures OpOk(ops[0], n) && OpsOk(ops[1..], n)
    ensures forall i :: 0 <= i < |ops| && ops[i].Push? ==> ops[i].messages != []
  {
    forall i | 0 <= i < |ops| ensures OpOk(ops[i], n) {
    }
    forall i | 0 <= i < |ops[1..]| ensures OpOk(ops[1..][i], n) {
      assert OpOk(ops[i + 1], n);
    }
  }

  /** At each pop of the run fewer than 65,536 requests were handed out before, or a completion waits. */
  ghost predicate InTime<T>(a: Abs<T>, popped: nat, ops: seq<Op<T>>, room: nat, blank: T)
    decreases |ops|
  {
    ops == [] ||
    (var (a1, seen) := AbsStep(a, ops[0], room, blank);
     && (ops[0].Pop? ==> popped < 0x1_0000 || a.done != [])
     && InTime(a1, popped + Gotten(seen), ops[1..], room, blank))
  }

  /**
    Over every interleaving of driver and device the driver sees exactly what the three lists
    say: a push fails only when every block is outstanding, and each pop returns the buffers of
    the oldest completion, in message order.
   */
  lemma {:induction false} RunRefines<T>(s: Sys<T>, n: nat, size: nat, blank: T, b: Book<T>, ops: seq<Op<T>>) returns (b': Book<T>)
    requires Rel(s, n, size, b) && OpsOk(ops, n) && InTime(View(b), s.q.popIndex, ops, Blocks(|s.q.desc|, n), blank)
    requires forall i :: 0 <= i < |ops| && ops[i].Push? ==> ops[i].messages != []
    ensures
      var (s', seen) := Run(s, ops, n, size, blank);
      && Rel(s', n, size, b') && |s'.q.desc| == |s.q.desc|
      && (View(b'), seen) == AbsRun(View(b), ops, Blocks(|s.q.desc|, n), blank)
    decreases |ops|
  {
    if ops == [] {
      b' := b;
    } else {
      OpsTail(ops, n);
      var b1 := StepRefines(s, n, size, blank, b, ops[0]);
      var s1 := Step(s, ops[0], n, size, blank).0;
      b' := RunRefines(s1, n, size, blank, b1, ops[1..]);
    }
  }

  /** The bound on `RunRefines` is exact: a run that is not in time is one on which the driver sees something else. */
  lemma {:induction false} RunRefinesIff<T>(s: Sys<T>, n: nat, size: nat, blank: T, b: Book<T>, ops: seq<Op<T>>)
    requires Rel(s, n, size, b) && OpsOk(ops, n)
    requires forall i :: 0 <= i < |ops| && ops[i].Push? ==> ops[i].messages != []
    ensures
      var room := Blocks(|s.q.desc|, n);
      Run(s, ops, n, size, blank).1 == AbsRun(View(b), ops, room, blank).1 <==> InTime(View(b), s.q.popIndex, ops, room, blank)
    decreases |ops|
  {
    if ops != [] {
      OpsTail(ops, n);
      if ops[0].Pop? && s.q.popIndex >= 0x1_0000 && b.done == [] {
        PopRightIff(s, n, size, blank, b);
        assert Run(s, ops, n, size, blank).1[0] != AbsRun(View(b), ops, Blocks(|s.q.desc|, n), blank).1[0];
      } else {
        var s1, b1, seen, a1 := FirstRefines(s, n, size, blank, b, ops);
        RunRefinesIff(s1, n, size, blank, b1, ops[1..]);
        SameHead(seen, Run(s1, ops[1..], n, size, blank).1, AbsRun(a1, ops[1..], Blocks(|s.q.desc|, n), blank).1);
      }
    }
  }

  lemma FirstRefines<T>(s: Sys<T>, n: nat, size: nat, blank: T, b: Book<T>, ops: seq<Op<T>>)
    returns (s1: Sys<T>, b1: Book<T>, seen: Seen<T>, a1: Abs<T>)
    requires Rel(s, n, size, b) && OpsOk(ops, n) && ops != []
    requires forall i :: 0 <= i < |ops| && ops[i].Push? ==> ops[i].messages != []
    requires !(ops[0].Pop? && s.q.popIndex >= 0x1_0000 && b.done == [])
    ensures Rel(s1, n, size, b1) && View(b1) == a1 && |s1.q.desc| == |s.q.desc|
    ensures Run(s, ops, n, size, blank).1 == [seen] + Run(s1, ops[1..], n, size, blank).1
    ensures
      var room := Blocks(|s.q.desc|, n);
      && AbsRun(View(b), ops, room, blank).1 == [seen] + AbsRun(a1, ops[1..], room, blank).1
      && (InTime(View(b), s.q.popIndex, ops, room, blank) <==> InTime(a1, s1.q.popIndex, ops[1..], room, blank))
  {
    OpsTail(ops, n);
    b1 := StepRefines(s, n, size, blank, b, ops[0]);
    a1 := View(b1);
    s1, seen := RunFirst(s, ops, n, size, blank);
    AbsRunFirst(View(b), s.q.popIndex, ops, Blocks(|s.q.desc|, n), blank, a1, seen);
  }

  lemma RunFirst<T>(s: Sys<T>, ops: seq<Op<T>>, n: nat, size: nat, blank: T) returns (s1: Sys<T>, seen: Seen<T>)
    requires Shaped(s.q) && ops != [] && forall i :: 0 <= i < |ops| && ops[i].Push? ==> ops[i].messages != []
    ensures (s1, seen) == Step(s, ops[0], n, size, blank) && Shaped(s1.q) && |s1.q.desc| == |s.q.desc|
    ensures Run(s, ops, n, size, blank).1 == [seen] + Run(s1, ops[1..], n, size, blank).1
  {
    s1, seen := Step(s, ops[0], n, size, blank).0, Step(s, ops[0], n, size, blank).1;
  }

  lemma AbsRunFirst<T>(a: Abs<T>, popped: nat, ops: seq<Op<T>>, room: nat, blank: T, a1: Abs<T>, seen: Seen<T>)
    requires ops != [] && (a1, seen) == AbsStep(a, ops[0], room, blank)
    requires ops[0].Pop? ==> popped < 0x1_0000 || a.done != []
    ensures AbsRun(a, ops, room, blank).1 == [seen] + AbsRun(a1, ops[1..], room, blank).1
    ensures InTime(a, popped, ops, room, blank) <==> InTime(a1, popped + Gotten(seen), ops[1..], room, blank)
  {
  }

  lemma SameHead<T>(x: Seen<T>, a: seq<Seen<T>>, b: seq<Seen<T>>)
    ensures [x] + a == [x] + b <==> a == b
  {
    if [x] + a == [x] + b {
      assert a == ([x] + a)[1..] == ([x] + b)[1..] == b;
    }
  }

  /** How many pushes of a run were accepted. */
  function Accepted<T>(seen: seq<Seen<T>>): (k: nat) {
    if seen == [] then 0 else (if seen[0] == Pushed(true) then 1 else 0) + Accepted(seen[1..])
  }

  /** Runs with fewer than 65,536 accepted pushes are in time, however often the driver polls. */
  lemma {:induction false} FewPushesInTime<T>(a: Abs<T>, popped: nat, ops: seq<Op<T>>, room: nat, blank: T)
    requires popped + a.Count() + Accepted(AbsRun(a, ops, room, blank).1) < 0x1_0000
    ensures InTime(a, popped, ops, room, blank)
    decreases |ops|
  {
    if ops != [] {
      var (a1, seen) := AbsStep(a, ops[0], room, blank);
      var more := AbsRun(a1, ops[1..], room, blank).1;
      assert ([seen] + more)[1..] == more;
      FewPushesInTime(a1, popped + Gotten(seen), ops[1..], room, blank);
    }
  }

  function NewQueue<T>(data: seq<T>): (q: Queue<T>) {
    var k := |data|;
    Queue(seq(k, _ => Desc(0, 0, false, false)), data, seq(k, _ => true), seq(k, _ => 0), 0, seq(k, _ => 0), 0, 0)
  }

  lemma NewQueueRel<T>(data: seq<T>, n: nat, size: nat)
    requires 0 < n <= |data| < 0x1_0000 && 0x1_0000 % |data| == 0
    ensures Rel(Sys(NewQueue(data), 0, []), n, size, Book(map[], [], [], []))
  {
  }

  /** The available descriptors and the outstanding chains partition the table, and the counts agree. */
  lemma Partition<T>(s: Sys<T>, n: nat, size: nat, b: Book<T>, d: nat)
    requires Rel(s, n, size, b) && d < |s.q.desc|
    ensures s.q.free[d] <==> forall h :: h in b.Order() ==> !(h <= d < h + n)
    ensures forall g, h :: g in b.Order() && h in b.Order() && g <= d < g + n && h <= d < h + n ==> g == h
    ensures s.q.availIdx == (s.q.popIndex + |b.Order()|) % 0x1_0000
  {
    forall h | h in b.Order() && h <= d < h + n ensures Start(d, n) == h {
      assert ChainOk(s.q, n, size, h, b.chains[h]);
      StartIs(h, d, n);
    }
  }

  /** Steps of the device alone. */
  ghost predicate DeviceOps<T>(ops: seq<Op<T>>) {
    forall i {:trigger ops[i]} :: 0 <= i < |ops| ==> ops[i].Fetch? || ops[i].Complete?
  }

  /** The device neither adds nor takes away requests, and what is done stays done, in order. */
  lemma {:induction false} DeviceKeepsCount<T>(a: Abs<T>, popped: nat, ops: seq<Op<T>>, room: nat, blank: T)
    requires DeviceOps(ops)
    ensures
      var a' := AbsRun(a, ops, room, blank).0;
      a'.Count() == a.Count() && a.done <= a'.done && InTime(a, popped, ops, room, blank)
    decreases |ops|
  {
    if ops != [] {
      assert ops[0].Fetch? || ops[0].Complete?;
      assert forall i :: 0 <= i < |ops[1..]| ==> ops[1..][i] == ops[i + 1];
      DeviceKeepsCount(AbsStep(a, ops[0], room, blank).0, popped, ops[1..], room, blank);
    }
  }

  /** The device changes buffers and the used ring only. */
  lemma {:induction false} DeviceWrites<T>(s: Sys<T>, ops: seq<Op<T>>, n: nat, size: nat, blank: T)
    requires Shaped(s.q) && DeviceOps(ops)
    ensures
      var q, q' := s.q, Run(s, ops, n, size, blank).0.q;
      q' == Queue(q.desc, q'.data, q.free, q.ring, q.availIdx, q'.used, q'.usedIdx, q.popIndex)
    decreases |ops|
  {
    if ops != [] {
      assert ops[0].Fetch? || ops[0].Complete?;
      assert forall i :: 0 <= i < |ops[1..]| ==> ops[1..][i] == ops[i + 1];
      DeviceWrites(Step(s, ops[0], n, size, blank).0, ops[1..], n, size, blank);
    }
  }

  /** Where there is room, it stays whatever the device does. */
  lemma RoomStays<T>(s: Sys<T>, n: nat, size: nat, blank: T, b: Book<T>, device: seq<Op<T>>, messages: seq<Message<T>>)
    requires Rel(s, n, size, b) && |messages| == n && View(b).Count() < Blocks(|s.q.desc|, n)
    requires DeviceOps(device) && OpsOk(device, n)
    ensures Step(Run(s, device, n, size, blank).0, Push(messages), n, size, blank).1 == Pushed(true)
  {
    DeviceKeepsCount(View(b), s.q.popIndex, device, Blocks(|s.q.desc|, n), blank);
    var b2 := RunRefines(s, n, size, blank, b, device);
    var b3 := PushRefines(Run(s, device, n, size, blank).0, n, size, blank, b2, messages);
  }

  /** After a pop that returned something there is room, whatever the device does meanwhile: reposting cannot fail. */
  lemma RepostFits<T>(s: Sys<T>, n: nat, size: nat, blank: T, b: Book<T>, device: seq<Op<T>>, messages: seq<Message<T>>)
    requires Rel(s, n, size, b) && |messages| == n && (s.q.popIndex < 0x1_0000 || b.done != [])
    requires DeviceOps(device) && OpsOk(device, n) && Step(s, Pop, n, size, blank).1.r.Popped?
    ensures Step(Run(Step(s, Pop, n, size, blank).0, device, n, size, blank).0, Push(messages), n, size, blank).1 == Pushed(true)
  {
    RoomLeft(s, n, size, b);
    var b1 := PopRefines(s, n, size, blank, b);
    RoomStays(Step(s, Pop, n, size, blank).0, n, size, blank, b1, device, messages);
  }

  /**
    One chain length is needed: once a longer chain from descriptor 0 has come back, a chain of
    one is taken from that descriptor, its link is stale, and `pop` runs past its output.
   */
  lemma MixedLengthsOverrun<T>(s: Sys<T>, n: nat, size: nat, blank: T, b: Book<T>, m: Message<T>)
    requires Rel(s, n, size, b) && n >= 2 && b.done != [] && b.done[0] == 0
    ensures
      var q1 := Virtqueue.Pop(s.q, n).0;
      var (q2, ok) := Virtqueue.Push(q1, [m], size, blank);
      ok && Grab(q1.free, 1).0 == [0] && Walk(q2.desc, 0, 1) == None
  {
    OrderParts(b);
    RoomLeft(s, n, size, b);
    assert ChainOk(s.q, n, size, 0, b.chains[0]);
    assert CellOk(s.q, n, size, 0, b.chains[0], 0);
    PopOne(s, n, size, b);
    StaleFront(s.q.free, n);
    PushedChain(Virtqueue.Pop(s.q, n).0, [m], size, blank);
  }

  /** Once the block at 0 is returned, a chain of one takes its first descriptor. */
  lemma StaleFront(free: seq<bool>, n: nat)
    requires 0 < n <= |free|
    ensures Grab(GiveBack(free, Range(0, n)), 1).0 == [0]
  {
    GiveBackExact(free, Range(0, n), 0);
    assert Range(0, n)[0] == 0;
    GrabFront(GiveBack(free, Range(0, n)));
  }

  lemma GrabFront(free: seq<bool>)
    requires free != [] && free[0]
    ensures Grab(free, 1).0 == [0]
  {
    assert First(free) == 0;
    assert Grab(free, 0) == ([], free);
  }
}
