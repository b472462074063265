/**
  The virtqueue in place: `push` and `pop` over the shared arrays, and the input device that
  keeps its queue full.
 */
module VirtqueueDriver {
  import opened Virtqueue
  import opened VirtqueueBlocks
  import opened VirtqueueRuns
  import opened Options

  class DriverQueue<T(0)> {
    const size: nat
    const blank: T
    const descriptors: array<Desc>
    const buffers: array<T>
    const available: array<bool>
    const availRing: array<nat>
    var availIdx: nat
    const usedRing: array<nat>
    var usedIdx: nat
    var popIndex: nat

    ghost predicate Apart() {
      && descriptors as object != buffers && descriptors as object != available && descriptors as object != availRing
      && descriptors as object != usedRing && buffers as object != available && buffers as object != availRing
      && buffers as object != usedRing && available as object != availRing && available as object != usedRing
      && availRing != usedRing
      && 0 < descriptors.Length == buffers.Length == available.Length == availRing.Length == usedRing.Length
    }

    function Value(): (q: Queue<T>)
      requires Apart()
      ensures Shaped(q)
      reads this, descriptors, buffers, available, availRing, usedRing
    {
      Queue(descriptors[..], buffers[..], available[..], availRing[..], availIdx, usedRing[..], usedIdx, popIndex)
    }

    /** All descriptors available, all links zero, both rings empty. */
    constructor (data: seq<T>, size: nat, blank: T)
      requires data != []
      ensures this.size == size && this.blank == blank
      ensures fresh(descriptors) && fresh(buffers) && fresh(available) && fresh(availRing) && fresh(usedRing)
      ensures Apart() && Value() == NewQueue(data)
    {
      this.size, this.blank := size, blank;
      descriptors := new Desc[|data|](_ => Desc(0, 0, false, false));
      buffers := new T[|data|](i requires 0 <= i < |data| => data[i]);
      available := new bool[|data|](_ => true);
      availRing := new nat[|data|](_ => 0);
      usedRing := new nat[|data|](_ => 0);
      availIdx, usedIdx, popIndex := 0, 0, 0;
      new;
      ghost var q := NewQueue(data);
      assert descriptors[..] == q.desc && buffers[..] == q.data && available[..] == q.free;
      assert availRing[..] == q.ring && usedRing[..] == q.used;
    }

    /** The lowest available descriptor is taken. */
    method TakeDescriptor() returns (d: nat)
      requires Apart()
      modifies available
      ensures d == First(old(available[..]))
      ensures available[..] == if d < available.Length then old(available[..])[d := false] else old(available[..])
    {
      d := 0;
      while d < available.Length && !available[d]
        invariant d <= available.Length
        invariant forall k :: 0 <= k < d ==> !available[k]
        invariant available[..] == old(available[..])
      {
        d := d + 1;
      }
      if d < available.Length {
        available[d] := false;
      }
    }

    /** Take a descriptor per message, or put back those taken and report failure. */
    method Reserve(n: nat) returns (ids: seq<nat>, ok: bool)
      requires Apart()
      modifies available
      ensures ok == (|Grab(old(available[..]), n).0| == n)
      ensures ok ==> (ids, available[..]) == Grab(old(available[..]), n)
      ensures !ok ==> available[..] == old(available[..])
    {
      ghost var free := available[..];
      ids := [];
      for i := 0 to n
        invariant |ids| == i && (ids, available[..]) == Grab(free, i)
      {
        var d := TakeDescriptor();
        if d == available.Length {
          GrabStuck(free, i, n);
          Restore(ids);
          GrabUndone(free, i);
          return ids, false;
        }
        ids := ids + [d];
      }
      ok := true;
    }

    method Restore(ids: seq<nat>)
      requires Apart() && forall i :: 0 <= i < |ids| ==> ids[i] < available.Length
      modifies available
      ensures available[..] == GiveBack(old(available[..]), ids)
    {
      for i := 0 to |ids|
        invariant available[..] == GiveBack(old(available[..]), ids[..i])
      {
        available[ids[i]] := true;
        assert ids[..i + 1][..i] == ids[..i];
      }
      assert ids[..|ids|] == ids;
    }

    /** Describe each message in its descriptor and copy it into its buffer. */
    method WriteChain(messages: seq<Message<T>>, ids: seq<nat>)
      requires Apart() && |ids| == |messages| && forall i :: 0 <= i < |ids| ==> ids[i] < descriptors.Length
      modifies descriptors, buffers
      ensures descriptors[..] == Filled(old(descriptors[..]), messages, ids, size, |ids|)
      ensures buffers[..] == Loaded(old(buffers[..]), messages, ids, blank, |ids|)
    {
      for i := 0 to |messages|
        invariant descriptors[..] == Filled(old(descriptors[..]), messages, ids, size, i)
        invariant buffers[..] == Loaded(old(buffers[..]), messages, ids, blank, i)
      {
        var d := ids[i];
        var was := descriptors[d];
        buffers[d] := DataOf(messages[i], blank);
        descriptors[d] := Desc(LenOf(messages[i], size), if i < |ids| - 1 then ids[i + 1] else was.next,
                               i < |ids| - 1, messages[i].DeviceWrite?);
      }
    }

    method Push(messages: seq<Message<T>>) returns (ok: bool)
      requires Apart() && messages != []
      modifies this`availIdx, descriptors, buffers, available, availRing
      ensures (Value(), ok) == Virtqueue.Push(old(Value()), messages, size, blank)
    {
      var ids;
      ids, ok := Reserve(|messages|);
      if ok {
        WriteChain(messages, ids);
        availRing[availIdx % availRing.Length] := ids[0];
        availIdx := (availIdx + 1) % 0x1_0000;
      }
    }

    /** Follow a chain by its links, copying out each buffer and returning each descriptor. */
    method Follow(head: nat, n: nat) returns (ok: bool, out: seq<T>)
      requires Apart()
      modifies available
      ensures ok == Walk(descriptors[..], head, n).Some?
      ensures ok ==> out == Gather(buffers[..], Walk(descriptors[..], head, n).value)
      ensures ok ==> available[..] == GiveBack(old(available[..]), Walk(descriptors[..], head, n).value)
    {
      ghost var desc, data, free := descriptors[..], buffers[..], available[..];
      ghost var ids: seq<nat> := [];
      var d: nat, left: nat := head, n;
      out := [];
      PrefixedNone(Walk(desc, d, n));
      while true
        invariant forall i :: 0 <= i < |ids| ==> ids[i] < |desc|
        invariant out == Gather(data, ids) && available[..] == GiveBack(free, ids)
        invariant Walk(desc, head, n) == Prefixed(ids, Walk(desc, d, left))
        decreases left
      {
        if left == 0 || d >= descriptors.Length {
          return false, out;
        }
        var next := descriptors[d].next;
        WalkStep(desc, head, n, ids, d, left);
        GatherSnoc(data, ids, d);
        GiveBackSnoc(free, ids, d);
        out := out + [buffers[d]];
        available[d] := true;
        ids := ids + [d];
        if next == 0 {
          return true, out;
        }
        d, left := next, left - 1;
      }
    }

    /** What the device has written to memory: buffers and the used ring. */
    method Absorb(q: Queue<T>)
      requires Apart() && |q.data| == buffers.Length && |q.used| == usedRing.Length
      modifies this`usedIdx, buffers, usedRing
      ensures Value() == Queue(old(Value()).desc, q.data, old(Value()).free, old(Value()).ring, availIdx, q.used, q.usedIdx, popIndex)
    {
      forall i | 0 <= i < buffers.Length {
        buffers[i] := q.data[i];
      }
      forall i | 0 <= i < usedRing.Length {
        usedRing[i] := q.used[i];
      }
      usedIdx := q.usedIdx;
      assert buffers[..] == q.data && usedRing[..] == q.used;
    }

    method Pop(n: nat) returns (r: PopResult<T>)
      requires Apart()
      modifies this`popIndex, available
      ensures r == Virtqueue.Pop(old(Value()), n).1
      ensures r != Panicked ==> Value() == Virtqueue.Pop(old(Value()), n).0
    {
      if usedIdx == popIndex {
        return Empty;
      }
      var ok, out := Follow(usedRing[popIndex % usedRing.Length], n);
      if !ok {
        return Panicked;
      }
      popIndex := popIndex + 1;
      return Popped(out);
    }
  }

  lemma GatherSnoc<T>(data: seq<T>, ids: seq<nat>, d: nat)
    requires d < |data| && forall i :: 0 <= i < |ids| ==> ids[i] < |data|
    ensures Gather(data, ids + [d]) == Gather(data, ids) + [data[d]]
  {
  }

  /** One step of a walk that began at `head` and has passed `ids`. */
  lemma WalkStep(desc: seq<Desc>, head: nat, n: nat, ids: seq<nat>, d: nat, left: nat)
    requires Walk(desc, head, n) == Prefixed(ids, Walk(desc, d, left)) && 0 < left && d < |desc|
    ensures Walk(desc, head, n) == if desc[d].next == 0 then Some(ids + [d]) else Prefixed(ids + [d], Walk(desc, desc[d].next, left - 1))
  {
    PrefixedStep(ids, d, Walk(desc, desc[d].next, left - 1));
  }

  lemma GiveBackSnoc(free: seq<bool>, ids: seq<nat>, d: nat)
    requires d < |free| && forall i :: 0 <= i < |ids| ==> ids[i] < |free|
    ensures GiveBack(free, ids + [d]) == GiveBack(free, ids)[d := true]
  {
    assert (ids + [d])[..|ids|] == ids;
  }

  lemma {:induction false} GrabStuck(free: seq<bool>, i: nat, n: nat)
    requires i <= n && First(Grab(free, i).1) == |free|
    ensures Grab(free, n) == Grab(free, i)
    decreases n
  {
    if i < n {
      GrabStuck(free, i, n - 1);
    }
  }

  /** A walk known to start with `ids`. */
  ghost function Prefixed(ids: seq<nat>, rest: Option<seq<nat>>): (r: Option<seq<nat>>) {
    if rest.None? then None else Some(ids + rest.value)
  }

  lemma PrefixedNone(rest: Option<seq<nat>>)
    ensures Prefixed([], rest) == rest
  {
    if rest.Some? {
      assert [] + rest.value == rest.value;
    }
  }

  lemma PrefixedStep(ids: seq<nat>, d: nat, rest: Option<seq<nat>>)
    ensures Prefixed(ids + [d], rest) == Prefixed(ids, Prefixed([d], rest))
  {
    if rest.Some? {
      assert ids + [d] + rest.value == ids + ([d] + rest.value);
    }
  }

  /** The input device: chains of one buffer each, all of them for the device to write. */
  class InputDevice<T(0)> {
    const queue: DriverQueue<T>
    ghost var book: Book<T>

    // The device's side: how far it has read the available ring, and what it is working on.
    var seen: nat
    var flight: seq<nat>

    ghost predicate Valid()
      reads this, queue, queue.descriptors, queue.buffers, queue.available, queue.availRing, queue.usedRing
    {
      queue.Apart() && Rel(Sys(queue.Value(), seen, flight), 1, queue.size, book)
    }

    /** A new device has posted every buffer it has. */
    constructor (data: seq<T>, size: nat, blank: T)
      requires 0 < |data| < 0x1_0000 && 0x1_0000 % |data| == 0
      ensures Valid() && queue.descriptors.Length == |data| && queue.popIndex == 0
      ensures View(book).done == [] && View(book).flight == [] && |View(book).posted| == |data|
    {
      queue := new DriverQueue(data, size, blank);
      seen, flight, book := 0, [], Book(map[], [], [], []);
      new;
      NewQueueRel(data, 1, size);
      Fill();
    }

    /** Post buffers until the queue takes no more: then every descriptor is outstanding. */
    method Fill()
      requires Valid()
      modifies this`book, queue, queue.descriptors, queue.buffers, queue.available, queue.availRing
      ensures Valid() && View(book).Count() == queue.descriptors.Length && queue.popIndex == old(queue.popIndex)
      ensures View(book).done == old(View(book).done) && View(book).flight == old(View(book).flight)
    {
      var ok := true;
      RoomLeft(Sys(queue.Value(), seen, flight), 1, queue.size, book);
      BlocksOfOne(queue.descriptors.Length);
      while ok
        invariant Valid() && View(book).Count() <= queue.descriptors.Length
        invariant queue.popIndex == old(queue.popIndex)
        invariant !ok ==> View(book).Count() == queue.descriptors.Length
        invariant View(book).done == old(View(book).done) && View(book).flight == old(View(book).flight)
        decreases queue.descriptors.Length - View(book).Count(), ok
      {
        ghost var b := PushRefines(Sys(queue.Value(), seen, flight), 1, queue.size, queue.blank, book, [DeviceWrite]);
        ok := queue.Push([DeviceWrite]);
        book := b;
      }
    }

    /** The oldest completion, if there is one, comes off the queue and leaves room for another buffer. */
    method Take() returns (r: PopResult<T>)
      requires Valid() && queue.popIndex < 0x1_0000
      modifies this`book, queue`popIndex, queue.available
      ensures Valid() && !r.Panicked?
      ensures r.Empty? ==> old(View(book).done) == [] && View(book) == old(View(book))
      ensures r.Popped? ==>
        var done := old(View(book).done);
        && done != [] && done[0].data == r.out && |r.out| == 1 && queue.popIndex == old(queue.popIndex) + 1
        && View(book) == Abs(done[1..], old(View(book).flight), old(View(book).posted))
        && View(book).Count() < Blocks(queue.descriptors.Length, 1)
    {
      ghost var s := Sys(queue.Value(), seen, flight);
      FirstDone(s, queue.size, book);
      RoomLeft(s, 1, queue.size, book);
      ghost var b := PopRefines(s, 1, queue.size, queue.blank, book);
      r := queue.Pop(1);
      book := b;
    }

    /** Where there is room, posting a buffer cannot fail. */
    method Repost()
      requires Valid() && View(book).Count() < Blocks(queue.descriptors.Length, 1)
      modifies this`book, queue`availIdx, queue.descriptors, queue.buffers, queue.available, queue.availRing
      ensures Valid() && queue.popIndex == old(queue.popIndex)
      ensures View(book) == AbsStep(old(View(book)), Push([DeviceWrite]), Blocks(queue.descriptors.Length, 1), queue.blank).0
    {
      ghost var b := PushRefines(Sys(queue.Value(), seen, flight), 1, queue.size, queue.blank, book, [DeviceWrite]);
      var ok := queue.Push([DeviceWrite]);
      assert ok;
      book := b;
    }

    /** The device makes any steps of its own. */
    method DeviceSteps(ops: seq<Op<T>>)
      requires Valid() && DeviceOps(ops) && OpsOk(ops, 1)
      modifies this, queue`usedIdx, queue.buffers, queue.usedRing
      ensures Valid() && queue.popIndex == old(queue.popIndex)
      ensures View(book) == AbsRun(old(View(book)), ops, Blocks(queue.descriptors.Length, 1), queue.blank).0
    {
      ghost var was := View(book);
      var s := Sys(queue.Value(), seen, flight);
      DeviceKeepsCount(was, queue.popIndex, ops, Blocks(queue.descriptors.Length, 1), queue.blank);
      DeviceWrites(s, ops, 1, queue.size, queue.blank);
      ghost var b := RunRefines(s, 1, queue.size, queue.blank, book, ops);
      var s' := Run(s, ops, 1, queue.size, queue.blank).0;
      queue.Absorb(s'.q);
      seen, flight, book := s'.seen, s'.flight, b;
    }

    /** One round of `poll`, with the device at work before the pop and before the push. */
    method PollRound(turn: Turn<T>) returns (r: Option<T>)
      requires Valid() && TurnsOk([turn]) && queue.popIndex < 0x1_0000
      modifies this, queue, queue.descriptors, queue.buffers, queue.available, queue.availRing, queue.usedRing
      ensures Valid()
      ensures
        var (a, event) := AbsRound(old(View(book)), turn, Blocks(queue.descriptors.Length, 1), queue.blank);
        && View(book) == a && r.Some? == event.Some? && (r.Some? ==> event.value.data == [r.value])
        && queue.popIndex == old(queue.popIndex) + if r.Some? then 1 else 0
    {
      assert [turn][0] == turn;
      DeviceSteps(turn.beforePop);
      var event := Take();
      if event == Empty {
        return None;
      }
      RepostAfter(turn.beforePush);
      return Some(event.out[0]);
    }

    /** Whatever the device does first, the buffer is posted again. */
    method RepostAfter(ops: seq<Op<T>>)
      requires Valid() && DeviceOps(ops) && OpsOk(ops, 1) && View(book).Count() < Blocks(queue.descriptors.Length, 1)
      modifies this, queue, queue.descriptors, queue.buffers, queue.available, queue.availRing, queue.usedRing
      ensures Valid() && queue.popIndex == old(queue.popIndex)
      ensures
        var room := Blocks(queue.descriptors.Length, 1);
        View(book) == AbsStep(AbsRun(old(View(book)), ops, room, queue.blank).0, Push([DeviceWrite]), room, queue.blank).0
    {
      DeviceKeepsCount(View(book), 0, ops, Blocks(queue.descriptors.Length, 1), queue.blank);
      DeviceSteps(ops);
      Repost();
    }

    /**
      Take every completed event and repost its buffer, while the device goes on working between
      any two queue operations.  The reposts all succeed, every event comes out, in completion
      order, and as many buffers are outstanding as before.
     */
    method Poll(turns: seq<Turn<T>>) returns (out: seq<T>)
      requires Valid() && TurnsOk(turns)
      requires queue.popIndex + |AbsPoll(View(book), turns, Blocks(queue.descriptors.Length, 1), queue.blank).1| < 0x1_0000
      modifies this, queue, queue.descriptors, queue.buffers, queue.available, queue.availRing, queue.usedRing
      ensures Valid()
      ensures
        var (a, events) := AbsPoll(old(View(book)), turns, Blocks(queue.descriptors.Length, 1), queue.blank);
        View(book) == a && Carries(events, out)
    {
      ghost var room, first, all := Blocks(queue.descriptors.Length, 1), queue.popIndex, View(book);
      ghost var a := all;
      ghost var events: seq<Request<T>> := [];
      out := [];
      var rest := turns;
      assert [] + AbsPoll(a, turns, room, queue.blank).1 == AbsPoll(a, turns, room, queue.blank).1;
      while true
        invariant Valid() && TurnsOk(rest) && a == View(book) && Carries(events, out)
        invariant queue.popIndex == first + |out|
        invariant Polled(AbsPoll(all, turns, room, queue.blank), events, AbsPoll(a, rest, room, queue.blank))
        decreases |rest|, |a.done|
      {
        RoundShrinks(a, rest, room, queue.blank);
        PolledNext(AbsPoll(all, turns, room, queue.blank), events, a, rest, room, queue.blank);
        ghost var event := AbsRound(a, NextTurn(rest), room, queue.blank).1;
        var r := PollRound(NextTurn(rest));
        a := View(book);
        if r.None? {
          return;
        }
        out, events := out + [r.value], events + [event.value];
        rest := if rest == [] then [] else rest[1..];
      }
    }
  }

  /** What the device does around one round of the polling loop. */
  datatype Turn<T> = Turn(beforePop: seq<Op<T>>, beforePush: seq<Op<T>>)

  ghost predicate TurnsOk<T>(turns: seq<Turn<T>>) {
    forall i {:trigger turns[i]} :: 0 <= i < |turns| ==>
      && DeviceOps(turns[i].beforePop) && OpsOk(turns[i].beforePop, 1)
      && DeviceOps(turns[i].beforePush) && OpsOk(turns[i].beforePush, 1)
  }

  lemma TurnOk<T>(turns: seq<Turn<T>>)
    requires TurnsOk(turns)
    ensures turns != [] ==> TurnsOk([turns[0]]) && TurnsOk(turns[1..])
  {
    assert forall i :: 0 <= i < |turns| - 1 ==> turns[1..][i] == turns[i + 1];
  }

  function NextTurn<T>(turns: seq<Turn<T>>): (turn: Turn<T>) {
    if turns == [] then Turn([], []) else turns[0]
  }

  /** One round on lists of requests: the state left, and the request handed out, if any. */
  function AbsRound<T>(a: Abs<T>, turn: Turn<T>, room: nat, blank: T): (r: (Abs<T>, Option<Request<T>>)) {
    var a1 := AbsRun(a, turn.beforePop, room, blank).0;
    if a1.done == [] then (a1, None)
    else
      var a2 := AbsRun(Abs(a1.done[1..], a1.flight, a1.posted), turn.beforePush, room, blank).0;
      (AbsStep(a2, Push([DeviceWrite]), room, blank).0, Some(a1.done[0]))
  }

  /** A round hands out the oldest completion and keeps the number of buffers outstanding. */
  lemma RoundExact<T>(a: Abs<T>, turns: seq<Turn<T>>, room: nat, blank: T)
    requires TurnsOk(turns)
    ensures
      var (a', event) := AbsRound(a, NextTurn(turns), room, blank);
      && (event.None? ==> a.done == [] == a'.done)
      && (event.Some? && a.done != [] ==> event.value == a.done[0] && a.done[1..] <= a'.done)
      && (event.Some? && turns == [] ==> a.done != [] && a'.done == a.done[1..])
      && (a.Count() <= room ==> a'.Count() == a.Count())
  {
    var turn := NextTurn(turns);
    var a1 := AbsRun(a, turn.beforePop, room, blank).0;
    DeviceKeepsCount(a, 0, turn.beforePop, room, blank);
    if a1.done != [] {
      DeviceKeepsCount(Abs(a1.done[1..], a1.flight, a1.posted), 0, turn.beforePush, room, blank);
    }
  }

  lemma RoundShrinks<T>(a: Abs<T>, turns: seq<Turn<T>>, room: nat, blank: T)
    requires TurnsOk(turns)
    ensures TurnsOk([NextTurn(turns)]) && TurnsOk(if turns == [] then [] else turns[1..])
    ensures turns == [] && AbsRound(a, NextTurn(turns), room, blank).1.Some? ==>
              |AbsRound(a, NextTurn(turns), room, blank).0.done| < |a.done|
  {
    TurnOk(turns);
    RoundExact(a, turns, room, blank);
  }

  /** Rounds until one hands out nothing: the state left, and the requests handed out. */
  ghost function AbsPoll<T>(a: Abs<T>, turns: seq<Turn<T>>, room: nat, blank: T): (r: (Abs<T>, seq<Request<T>>))
    requires TurnsOk(turns)
    decreases |turns|, |a.done|
  {
    var (a1, event) := AbsRound(a, NextTurn(turns), room, blank);
    if event.None? then (a1, [])
    else
      RoundShrinks(a, turns, room, blank);
      var (a2, more) := AbsPoll(a1, if turns == [] then [] else turns[1..], room, blank);
      (a2, [event.value] + more)
  }

  ghost predicate Carries<T>(events: seq<Request<T>>, out: seq<T>) {
    |out| == |events| && forall i :: 0 <= i < |out| ==> events[i].data == [out[i]]
  }

  /** What polling yields in all, part of it handed out already. */
  ghost predicate Polled<T>(all: (Abs<T>, seq<Request<T>>), events: seq<Request<T>>, left: (Abs<T>, seq<Request<T>>)) {
    all.0 == left.0 && all.1 == events + left.1
  }

  lemma PolledNext<T>(all: (Abs<T>, seq<Request<T>>), events: seq<Request<T>>, a: Abs<T>, turns: seq<Turn<T>>, room: nat, blank: T)
    requires TurnsOk(turns) && TurnsOk(if turns == [] then [] else turns[1..]) && Polled(all, events, AbsPoll(a, turns, room, blank))
    ensures
      var (a1, event) := AbsRound(a, NextTurn(turns), room, blank);
      && |events| <= |all.1| && (event.None? ==> all == (a1, events))
      && (event.Some? ==> |events| < |all.1|)
      && (event.Some? ==> Polled(all, events + [event.value], AbsPoll(a1, if turns == [] then [] else turns[1..], room, blank)))
  {
    var (a1, event) := AbsRound(a, NextTurn(turns), room, blank);
    assert events + [] == events;
    if event.Some? {
      var more := AbsPoll(a1, if turns == [] then [] else turns[1..], room, blank).1;
      assert events + ([event.value] + more) == (events + [event.value]) + more;
    }
  }

  /** Every event that was complete comes out first, in order, and none is left; the outstanding buffers are as many as before. */
  lemma {:induction false} PollDrains<T>(a: Abs<T>, turns: seq<Turn<T>>, room: nat, blank: T)
    requires TurnsOk(turns) && a.Count() <= room
    ensures
      var (a', events) := AbsPoll(a, turns, room, blank);
      a.done <= events && a'.done == [] && a'.Count() == a.Count()
    decreases |turns|, |a.done|
  {
    var (a1, event) := AbsRound(a, NextTurn(turns), room, blank);
    RoundExact(a, turns, room, blank);
    if event.Some? {
      RoundShrinks(a, turns, room, blank);
      var rest := if turns == [] then [] else turns[1..];
      PollDrains(a1, rest, room, blank);
      if a.done != [] {
        assert a.done == [a.done[0]] + a.done[1..];
      }
    }
  }

  lemma {:induction false} BlocksOfOne(size: nat)
    ensures Blocks(size, 1) == size
  {
    if size > 0 {
      BlocksOfOne(size - 1);
    }
  }

  /** The oldest completion of a queue of single buffers holds one buffer. */
  lemma FirstDone<T>(s: Sys<T>, size: nat, b: Book<T>)
    requires Rel(s, 1, size, b)
    ensures b.done != [] ==> |View(b).done[0].data| == 1
  {
    if b.done != [] {
      OrderParts(b);
      assert ChainOk(s.q, 1, size, b.done[0], b.chains[b.done[0]]);
    }
  }
}
