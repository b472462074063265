/** The fixed-size message rings between the kernel and the shell. */
module ShellRing {
  import opened Options

  /** `push` writes the slot under its cursor whatever it holds; `pop` takes the slot under its own. */
  datatype Ring<T> = Ring(slots: seq<Option<T>>, push: nat, pop: nat)

  /** The slot `j` places after `p`. */
  function Ahead(p: nat, j: nat, size: nat): (i: nat)
    requires p < size && j <= size
    ensures i < size
  {
    if p + j < size then p + j else p + j - size
  }

  function Pushed<T>(r: Ring<T>, x: T): (r': Ring<T>)
    requires r.push < |r.slots|
  {
    Ring(r.slots[r.push := Some(x)], if r.push + 1 >= |r.slots| then 0 else r.push + 1, r.pop)
  }

  function Popped<T>(r: Ring<T>): (x: (Ring<T>, Option<T>))
    requires r.pop < |r.slots|
  {
    if r.slots[r.pop].None? then (r, None)
    else (Ring(r.slots[r.pop := None], r.push, if r.pop + 1 >= |r.slots| then 0 else r.pop + 1), r.slots[r.pop])
  }

  function NewRing<T>(size: nat): (r: Ring<T>) {
    Ring(seq(size, _ => None), 0, 0)
  }

  /** Slot `j` places after the pop cursor holds message `j`, or nothing past the last one. */
  ghost predicate SlotHolds<T>(r: Ring<T>, messages: seq<T>, j: nat)
    requires r.pop < |r.slots| && j < |r.slots|
  {
    r.slots[Ahead(r.pop, j, |r.slots|)] == if j < |messages| then Some(messages[j]) else None
  }

  /** Popping would return these messages, in this order. */
  ghost predicate Delivers<T>(r: Ring<T>, messages: seq<T>) {
    && r.pop < |r.slots| && r.push < |r.slots| && |messages| <= |r.slots|
    && (forall j {:trigger SlotHolds(r, messages, j)} :: 0 <= j < |r.slots| ==> SlotHolds(r, messages, j))
  }

  /** The ring is a queue of these messages: it delivers them, and the next push goes behind them. */
  ghost predicate Holds<T>(r: Ring<T>, messages: seq<T>) {
    Delivers(r, messages) && r.push == Ahead(r.pop, |messages|, |r.slots|)
  }

  lemma AheadDiffers(p: nat, i: nat, j: nat, size: nat)
    requires p < size && i < size && j < size && i != j
    ensures Ahead(p, i, size) != Ahead(p, j, size)
  {
  }

  lemma NewRingHolds<T>(size: nat)
    requires size > 0
    ensures Holds(NewRing<T>(size), [])
  {
  }

  lemma PushHolds<T>(r: Ring<T>, messages: seq<T>, x: T)
    requires Holds(r, messages) && |messages| < |r.slots|
    ensures Holds(Pushed(r, x), messages + [x])
  {
    var r' := Pushed(r, x);
    forall j | 0 <= j < |r'.slots| ensures SlotHolds(r', messages + [x], j) {
      assert SlotHolds(r, messages, j);
      if j != |messages| {
        AheadDiffers(r.pop, j, |messages|, |r.slots|);
      }
    }
  }

  /** A push into a full ring puts the newest message in the place of the oldest, at the front. */
  lemma PushFull<T>(r: Ring<T>, messages: seq<T>, x: T)
    requires Holds(r, messages) && |messages| == |r.slots|
    ensures Delivers(Pushed(r, x), [x] + messages[1..])
  {
    var r' := Pushed(r, x);
    forall j | 0 <= j < |r'.slots| ensures SlotHolds(r', [x] + messages[1..], j) {
      assert SlotHolds(r, messages, j);
      if j != 0 {
        AheadDiffers(r.pop, j, 0, |r.slots|);
      }
    }
  }

  lemma PopHolds<T>(r: Ring<T>, messages: seq<T>)
    requires Holds(r, messages)
    ensures messages == [] ==> Popped(r) == (r, None)
    ensures messages != [] ==> Popped(r).1 == Some(messages[0]) && Holds(Popped(r).0, messages[1..])
  {
    assert SlotHolds(r, messages, 0);
    if messages != [] {
      var r', size := Popped(r).0, |r.slots|;
      forall j | 0 <= j < size ensures SlotHolds(r', messages[1..], j) {
        if j + 1 < size {
          assert SlotHolds(r, messages, j + 1);
          AheadDiffers(r.pop, j + 1, 0, size);
        }
      }
    }
  }

  ghost predicate IsQueue<T(!new)>(r: Ring<T>) {
    exists messages :: Holds(r, messages)
  }

  /** The messages of a ring that has never overflowed. */
  ghost function Contents<T(!new)>(r: Ring<T>): (messages: seq<T>)
    requires IsQueue(r)
    ensures Holds(r, messages)
  {
    var messages :| Holds(r, messages);
    messages
  }

  lemma SlotsAgree<T>(r: Ring<T>, a: seq<T>, b: seq<T>, j: nat)
    requires Delivers(r, a) && Delivers(r, b) && j < |r.slots|
    ensures (j < |a| <==> j < |b|) && (j < |a| ==> a[j] == b[j])
  {
    assert SlotHolds(r, a, j);
    assert SlotHolds(r, b, j);
  }

  lemma ContentsIs<T(!new)>(r: Ring<T>, messages: seq<T>)
    requires Holds(r, messages)
    ensures IsQueue(r) && Contents(r) == messages
  {
    var other := Contents(r);
    var j := if |messages| < |other| then |messages| else |other|;
    if j < |r.slots| {
      SlotsAgree(r, messages, other, j);
    }
    forall j | 0 <= j < |messages| ensures j < |other| && messages[j] == other[j] {
      SlotsAgree(r, messages, other, j);
    }
  }

  /** After a push into a full ring the cursors no longer meet: it is not a queue any more. */
  lemma FullPushNoQueue<T(!new)>(r: Ring<T>, messages: seq<T>, x: T)
    requires Holds(r, messages) && |messages| == |r.slots| > 1
    ensures !IsQueue(Pushed(r, x))
  {
    var r' := Pushed(r, x);
    PushFull(r, messages, x);
    if IsQueue(r') {
      var other := Contents(r');
      if |other| < |r.slots| {
        SlotsAgree(r', [x] + messages[1..], other, |other|);
      }
    }
  }

  /** A message pushed is the last one delivered exactly if the ring was not full. */
  lemma PushAppendsIff<T>(r: Ring<T>, messages: seq<T>, x: T)
    requires Holds(r, messages)
    ensures Delivers(Pushed(r, x), messages + [x]) <==> |messages| < |r.slots|
  {
    if |messages| < |r.slots| {
      PushHolds(r, messages, x);
    }
  }

  /** The ring in place. */
  class SizedQueue<T(0)> {
    const inner: array<Option<T>>
    var pushCursor: nat
    var popCursor: nat

    ghost predicate Valid()
      reads this
    {
      pushCursor < inner.Length && popCursor < inner.Length
    }

    ghost function Value(): (r: Ring<T>)
      reads this, inner
    {
      Ring(inner[..], pushCursor, popCursor)
    }

    constructor (size: nat)
      requires size > 0
      ensures Valid() && fresh(inner) && Value() == NewRing(size)
    {
      inner := new Option<T>[size](_ => None);
      pushCursor, popCursor := 0, 0;
      new;
      assert inner[..] == NewRing<T>(size).slots;
    }

    method Push(element: T)
      requires Valid()
      modifies this, inner
      ensures Valid() && Value() == Pushed(old(Value()), element)
    {
      inner[pushCursor] := Some(element);
      pushCursor := pushCursor + 1;
      if pushCursor >= inner.Length {
        pushCursor := 0;
      }
    }

    method Pop() returns (element: Option<T>)
      requires Valid()
      modifies this, inner
      ensures Valid() && (Value(), element) == Popped(old(Value()))
    {
      element := inner[popCursor];
      inner[popCursor] := None;
      if element.Some? {
        popCursor := popCursor + 1;
        if popCursor >= inner.Length {
          popCursor := 0;
        }
      }
    }
  }
}
