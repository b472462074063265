/**
  The split virtqueue: a descriptor table, a ring of available chains, a ring of used chains,
  and the driver's `push` and `pop` over them, as functions of the queue's value.
 */
module Virtqueue {
  import opened Options

  /** One descriptor without its buffer: length, link, and the NEXT and WRITE flags. */
  datatype Desc = Desc(len: nat, next: nat, more: bool, write: bool)

  datatype Message<+T> = DeviceWrite | DeviceRead(data: T, len: Option<nat>)

  /**
    `data[d]` is the buffer of descriptor `d`, `free[d]` says whether it is available.  `ring`
    and `used` hold chain heads.  `availIdx` and `usedIdx` are 16 bits wide, `popIndex` is not.
   */
  datatype Queue<T> = Queue(desc: seq<Desc>, data: seq<T>, free: seq<bool>,
                            ring: seq<nat>, availIdx: nat, used: seq<nat>, usedIdx: nat, popIndex: nat)

  ghost predicate Shaped<T>(q: Queue<T>) {
    0 < |q.desc| == |q.data| == |q.free| == |q.ring| == |q.used|
  }

  function LenOf<T>(m: Message<T>, size: nat): (n: nat) {
    (if m.DeviceRead? && m.len.Some? then m.len.value else size) % 0x1_0000_0000
  }

  function DataOf<T>(m: Message<T>, blank: T): (x: T) {
    if m.DeviceRead? then m.data else blank
  }

  // --- Taking descriptors ---------------------------------------------------------------------

  /** The lowest available descriptor, or the size of the table. */
  function First(free: seq<bool>): (d: nat)
    ensures d <= |free| && (forall k :: 0 <= k < d ==> !free[k]) && (d < |free| ==> free[d])
  {
    if free == [] then 0 else if free[0] then 0 else 1 + First(free[1..])
  }

  /** Take up to `k` descriptors, lowest first. */
  function Grab(free: seq<bool>, k: nat): (r: (seq<nat>, seq<bool>))
    ensures |r.0| <= k && |r.1| == |free|
    ensures forall i :: 0 <= i < |r.0| ==> r.0[i] < |free|
  {
    if k == 0 then ([], free)
    else
      var (ids, rest) := Grab(free, k - 1);
      var d := First(rest);
      if d == |rest| then (ids, rest) else (ids + [d], rest[d := false])
  }

  function GiveBack(free: seq<bool>, ids: seq<nat>): (r: seq<bool>)
    requires forall i :: 0 <= i < |ids| ==> ids[i] < |free|
    ensures |r| == |free|
  {
    if ids == [] then free
    else GiveBack(free, ids[..|ids| - 1])[ids[|ids| - 1] := true]
  }

  predicate Below(ids: seq<nat>, i: nat, j: nat)
    requires i < |ids| && j < |ids|
  {
    ids[i] < ids[j]
  }

  ghost predicate Ascending(ids: seq<nat>) {
    forall i, j {:trigger Below(ids, i, j)} :: 0 <= i < j < |ids| ==> Below(ids, i, j)
  }

  lemma AscendingSnoc(ids: seq<nat>, d: nat)
    requires Ascending(ids) && (ids != [] ==> ids[|ids| - 1] < d)
    ensures Ascending(ids + [d])
  {
    forall i, j | 0 <= i < j < |ids + [d]| ensures Below(ids + [d], i, j) {
      if j < |ids| {
        assert Below(ids, i, j);
      } else if i < |ids| - 1 {
        assert Below(ids, i, |ids| - 1);
      }
    }
  }

  /** The taken descriptors ascend, they were available, and nothing else has changed. */
  lemma {:induction false} GrabExact(free: seq<bool>, k: nat)
    ensures
      var (ids, rest) := Grab(free, k);
      && Ascending(ids)
      && (forall i :: 0 <= i < |ids| ==> free[ids[i]] && !rest[ids[i]])
      && (forall d :: 0 <= d < |free| && rest[d] != free[d] ==> d in ids)
      && (ids != [] ==> forall d :: 0 <= d <= ids[|ids| - 1] ==> !rest[d])
  {
    if k > 0 {
      GrabExact(free, k - 1);
      var (ids, rest) := Grab(free, k - 1);
      var d := First(rest);
      if d < |rest| {
        AscendingSnoc(ids, d);
        assert forall e :: 0 <= e < |free| && e in ids ==> e in ids + [d];
      }
    }
  }

  lemma {:induction false} GiveBackExact(free: seq<bool>, ids: seq<nat>, d: nat)
    requires forall i :: 0 <= i < |ids| ==> ids[i] < |free|
    requires d < |free|
    ensures GiveBack(free, ids)[d] == (free[d] || d in ids)
    decreases |ids|
  {
    if ids != [] {
      var init := ids[..|ids| - 1];
      GiveBackExact(free, init, d);
      assert ids == init + [ids[|ids| - 1]];
    }
  }

  /** Returning what was taken restores the table: a push that fails half way leaves no trace. */
  lemma GrabUndone(free: seq<bool>, k: nat)
    ensures var (ids, rest) := Grab(free, k); GiveBack(rest, ids) == free
  {
    GrabExact(free, k);
    var (ids, rest) := Grab(free, k);
    forall d | 0 <= d < |free| ensures GiveBack(rest, ids)[d] == free[d] {
      GiveBackExact(rest, ids, d);
    }
  }

  // --- Push -------------------------------------------------------------------------------------

  /** The descriptor of message `i`: the last one keeps whatever link it had. */
  function Described<T>(was: Desc, messages: seq<Message<T>>, ids: seq<nat>, i: nat, size: nat): (d: Desc)
    requires i < |ids| == |messages|
  {
    Desc(LenOf(messages[i], size), if i < |ids| - 1 then ids[i + 1] else was.next, i < |ids| - 1, messages[i].DeviceWrite?)
  }

  /** The descriptor table once the first `k` messages are written. */
  function Filled<T>(desc: seq<Desc>, messages: seq<Message<T>>, ids: seq<nat>, size: nat, k: nat): (r: seq<Desc>)
    requires k <= |ids| == |messages|
    requires forall i :: 0 <= i < |ids| ==> ids[i] < |desc|
    ensures |r| == |desc|
  {
    if k == 0 then desc
    else
      var r := Filled(desc, messages, ids, size, k - 1);
      r[ids[k - 1] := Described(r[ids[k - 1]], messages, ids, k - 1, size)]
  }

  function Loaded<T>(data: seq<T>, messages: seq<Message<T>>, ids: seq<nat>, blank: T, k: nat): (r: seq<T>)
    requires k <= |ids| == |messages|
    requires forall i :: 0 <= i < |ids| ==> ids[i] < |data|
    ensures |r| == |data|
  {
    if k == 0 then data
    else Loaded(data, messages, ids, blank, k - 1)[ids[k - 1] := DataOf(messages[k - 1], blank)]
  }

  /** The slot of a ring that a running count falls on. */
  function Slot(count: nat, size: nat): (i: nat)
    requires size > 0
    ensures i < size
  {
    count % size
  }

  function Push<T>(q: Queue<T>, messages: seq<Message<T>>, size: nat, blank: T): (r: (Queue<T>, bool))
    requires Shaped(q) && messages != []
    ensures Shaped(r.0) && |r.0.desc| == |q.desc|
  {
    var (ids, rest) := Grab(q.free, |messages|);
    if |ids| < |messages| then (q, false)
    else
      (Queue(Filled(q.desc, messages, ids, size, |ids|), Loaded(q.data, messages, ids, blank, |ids|), rest,
             q.ring[Slot(q.availIdx, |q.ring|) := ids[0]], (q.availIdx + 1) % 0x1_0000, q.used, q.usedIdx, q.popIndex), true)
  }

  // --- Pop --------------------------------------------------------------------------------------

  /** Follow `next` from `d` until it is 0; nothing if that leaves the table or passes `n` descriptors. */
  function Walk(desc: seq<Desc>, d: nat, n: nat): (r: Option<seq<nat>>)
    ensures r.Some? ==> 0 < |r.value| <= n && forall i :: 0 <= i < |r.value| ==> r.value[i] < |desc|
    decreases n
  {
    if n == 0 || d >= |desc| then None
    else if desc[d].next == 0 then Some([d])
    else
      match Walk(desc, desc[d].next, n - 1)
      case None => None
      case Some(rest) => Some([d] + rest)
  }

  /** What the device does: follow `next` while the NEXT flag is set. */
  function Chain(desc: seq<Desc>, d: nat, n: nat): (r: Option<seq<nat>>)
    ensures r.Some? ==> 0 < |r.value| <= n && forall i :: 0 <= i < |r.value| ==> r.value[i] < |desc|
    decreases n
  {
    if n == 0 || d >= |desc| then None
    else if !desc[d].more then Some([d])
    else
      match Chain(desc, desc[d].next, n - 1)
      case None => None
      case Some(rest) => Some([d] + rest)
  }

  function Gather<T>(data: seq<T>, ids: seq<nat>): (r: seq<T>)
    requires forall i :: 0 <= i < |ids| ==> ids[i] < |data|
  {
    seq(|ids|, i requires 0 <= i < |ids| => data[ids[i]])
  }

  datatype PopResult<+T> = Empty | Panicked | Popped(out: seq<T>)

  /** `pop::<n>`; it panics where the source indexes out of bounds. */
  function Pop<T>(q: Queue<T>, n: nat): (r: (Queue<T>, PopResult<T>))
    requires Shaped(q)
    ensures Shaped(r.0) && |r.0.desc| == |q.desc|
  {
    if q.usedIdx == q.popIndex then (q, Empty)
    else
      match Walk(q.desc, q.used[Slot(q.popIndex, |q.used|)], n)
      case None => (q, Panicked)
      case Some(ids) =>
        (Queue(q.desc, q.data, GiveBack(q.free, ids), q.ring, q.availIdx, q.used, q.usedIdx, q.popIndex + 1),
         Popped(Gather(q.data, ids)))
  }

  // --- What a push writes -------------------------------------------------------------------------

  /** Descriptors that no message went to keep what they had. */
  lemma {:induction false} FilledElsewhere<T>(desc: seq<Desc>, data: seq<T>, messages: seq<Message<T>>, ids: seq<nat>,
                                              size: nat, blank: T, k: nat, d: nat)
    requires k <= |ids| == |messages| && d < |desc| == |data|
    requires forall i :: 0 <= i < |ids| ==> ids[i] < |desc|
    requires forall i :: 0 <= i < k ==> ids[i] != d
    ensures Filled(desc, messages, ids, size, k)[d] == desc[d]
    ensures Loaded(data, messages, ids, blank, k)[d] == data[d]
  {
    if k > 0 {
      FilledElsewhere(desc, data, messages, ids, size, blank, k - 1, d);
    }
  }

  /** Each message went to its descriptor and stayed there. */
  lemma {:induction false} FilledAt<T>(desc: seq<Desc>, data: seq<T>, messages: seq<Message<T>>, ids: seq<nat>,
                                       size: nat, blank: T, k: nat, i: nat)
    requires i < k <= |ids| == |messages| && |desc| == |data| && Ascending(ids)
    requires forall i :: 0 <= i < |ids| ==> ids[i] < |desc|
    ensures Filled(desc, messages, ids, size, k)[ids[i]] == Described(desc[ids[i]], messages, ids, i, size)
    ensures Loaded(data, messages, ids, blank, k)[ids[i]] == DataOf(messages[i], blank)
  {
    if i == k - 1 {
      forall j | 0 <= j < i ensures ids[j] != ids[i] {
        assert Below(ids, j, i);
      }
      FilledElsewhere(desc, data, messages, ids, size, blank, i, ids[i]);
    } else {
      assert Below(ids, i, k - 1);
      FilledAt(desc, data, messages, ids, size, blank, k - 1, i);
    }
  }

  // --- The two ways of following a chain ----------------------------------------------------------

  /** Descriptor `i` of a chain leads to the one after it, and has the NEXT flag unless it is the last. */
  ghost predicate LinkAt(desc: seq<Desc>, ids: seq<nat>, i: nat)
    requires i < |ids|
  {
    && ids[i] < |desc| && desc[ids[i]].more == (i < |ids| - 1)
    && (i < |ids| - 1 ==> desc[ids[i]].next == ids[i + 1] > 0)
  }

  ghost predicate Links(desc: seq<Desc>, ids: seq<nat>) {
    forall i {:trigger LinkAt(desc, ids, i)} :: 0 <= i < |ids| ==> LinkAt(desc, ids, i)
  }

  lemma LinksTail(desc: seq<Desc>, ids: seq<nat>)
    requires Links(desc, ids) && 1 < |ids|
    ensures Links(desc, ids[1..]) && ids == [ids[0]] + ids[1..]
    ensures ids[0] < |desc| && desc[ids[0]].more && desc[ids[0]].next == ids[1..][0] > 0
  {
    assert LinkAt(desc, ids, 0);
    forall i | 0 <= i < |ids[1..]| ensures LinkAt(desc, ids[1..], i) {
      assert LinkAt(desc, ids, i + 1);
    }
  }

  lemma {:induction false} ChainIs(desc: seq<Desc>, ids: seq<nat>, n: nat)
    requires Links(desc, ids) && 0 < |ids| <= n
    ensures Chain(desc, ids[0], n) == Some(ids)
    decreases |ids|
  {
    if |ids| > 1 {
      LinksTail(desc, ids);
      ChainIs(desc, ids[1..], n - 1);
    } else {
      assert LinkAt(desc, ids, 0);
      assert ids == [ids[0]];
    }
  }

  /** `pop` follows a chain of `n` to its end and no further exactly if the last link is 0. */
  lemma {:induction false} WalkIsIff(desc: seq<Desc>, ids: seq<nat>)
    requires Links(desc, ids) && 0 < |ids| && ids[|ids| - 1] < |desc|
    ensures Walk(desc, ids[0], |ids|) == if desc[ids[|ids| - 1]].next == 0 then Some(ids) else None
    decreases |ids|
  {
    if |ids| > 1 {
      LinksTail(desc, ids);
      WalkIsIff(desc, ids[1..]);
    } else {
      assert ids == [ids[0]];
    }
  }

  lemma {:induction false} AscendingFits(ids: seq<nat>, n: nat)
    requires Ascending(ids) && forall i :: 0 <= i < |ids| ==> ids[i] < n
    ensures |ids| <= n
    ensures forall i :: 0 < i < |ids| ==> 0 < ids[i]
  {
    if |ids| > 0 {
      var init, last := ids[..|ids| - 1], |ids| - 1;
      forall i, j | 0 <= i < j < |init| ensures Below(init, i, j) {
        assert Below(ids, i, j);
      }
      forall i | 0 <= i < last ensures init[i] < ids[last] {
        assert Below(ids, i, last);
      }
      AscendingFits(init, ids[last]);
      assert forall i :: 0 < i < last ==> ids[i] == init[i];
    }
  }

  lemma PushLinkAt<T>(q: Queue<T>, messages: seq<Message<T>>, size: nat, blank: T, ids: seq<nat>, i: nat)
    requires Shaped(q) && i < |ids| == |messages| && ids == Grab(q.free, |messages|).0
    ensures
      var q' := Push(q, messages, size, blank).0;
      && LinkAt(q'.desc, ids, i) && q'.data[ids[i]] == DataOf(messages[i], blank)
      && q'.desc[ids[i]] == Described(q.desc[ids[i]], messages, ids, i, size)
  {
    GrabExact(q.free, |messages|);
    AscendingFits(ids, |q.desc|);
    FilledAt(q.desc, q.data, messages, ids, size, blank, |ids|, i);
  }

  /** A push that succeeds links the descriptors it took, lowest first, and loads their buffers. */
  lemma PushLinks<T>(q: Queue<T>, messages: seq<Message<T>>, size: nat, blank: T, ids: seq<nat>)
    requires Shaped(q) && 0 < |ids| == |messages| && ids == Grab(q.free, |messages|).0
    ensures
      var q' := Push(q, messages, size, blank).0;
      && |ids| <= |q.desc| && Links(q'.desc, ids)
      && (forall i :: 0 <= i < |ids| ==> q'.data[ids[i]] == DataOf(messages[i], blank))
      && q'.desc[ids[|ids| - 1]].next == q.desc[ids[|ids| - 1]].next
  {
    var q' := Push(q, messages, size, blank).0;
    forall i | 0 <= i < |ids| ensures LinkAt(q'.desc, ids, i) && q'.data[ids[i]] == DataOf(messages[i], blank) {
      PushLinkAt(q, messages, size, blank, ids, i);
    }
    PushLinkAt(q, messages, size, blank, ids, |ids| - 1);
    GrabExact(q.free, |messages|);
    AscendingFits(ids, |q.desc|);
  }

  /** A descriptor and its buffer as a message asks for them: whose to write, how long, and holding what. */
  ghost predicate Conveys<T>(d: Desc, x: T, m: Message<T>, size: nat, blank: T) {
    match m
    case DeviceWrite => d.write && d.len == size % 0x1_0000_0000 && x == blank
    case DeviceRead(data, None) => !d.write && d.len == size % 0x1_0000_0000 && x == data
    case DeviceRead(data, Some(len)) => !d.write && d.len == len % 0x1_0000_0000 && x == data
  }

  /** The head of a chain stands in the ring where the device looks next, and the count moves on. */
  ghost predicate Announced<T>(q: Queue<T>, q': Queue<T>, head: nat)
    requires Shaped(q)
  {
    q'.ring == q.ring[q.availIdx % |q.ring| := head] && q'.availIdx == (q.availIdx + 1) % 0x1_0000
  }

  /**
    For any queue and any messages: the device reads the chain that was pushed, message by
    message, and `pop` reads it back exactly if the last descriptor taken had a zero link to
    begin with.  Nothing in `push` makes it so.
   */
  lemma PushedChain<T>(q: Queue<T>, messages: seq<Message<T>>, size: nat, blank: T)
    requires Shaped(q) && messages != [] && Push(q, messages, size, blank).1
    ensures
      var (ids, _) := Grab(q.free, |messages|);
      var q' := Push(q, messages, size, blank).0;
      && |ids| == |messages| && Announced(q, q', ids[0])
      && Chain(q'.desc, ids[0], |q'.desc|) == Some(ids)
      && (forall i :: 0 <= i < |ids| ==> Conveys(q'.desc[ids[i]], q'.data[ids[i]], messages[i], size, blank))
      && Walk(q'.desc, ids[0], |ids|) == if q.desc[ids[|ids| - 1]].next == 0 then Some(ids) else None
  {
    var (ids, rest) := Grab(q.free, |messages|);
    var q' := Push(q, messages, size, blank).0;
    PushLinks(q, messages, size, blank, ids);
    ChainIs(q'.desc, ids, |q'.desc|);
    WalkIsIff(q'.desc, ids);
    forall i | 0 <= i < |ids| ensures Conveys(q'.desc[ids[i]], q'.data[ids[i]], messages[i], size, blank) {
      PushLinkAt(q, messages, size, blank, ids, i);
    }
  }

  /** A push fails exactly if fewer descriptors are available than messages, and then changes nothing. */
  lemma PushFailsIff<T>(q: Queue<T>, messages: seq<Message<T>>, size: nat, blank: T)
    requires Shaped(q) && messages != []
    ensures
      var (q', ok) := Push(q, messages, size, blank);
      && (ok <==> |set d | 0 <= d < |q.free| && q.free[d]| >= |messages|)
      && (!ok ==> q' == q)
  {
    GrabCounts(q.free, |messages|);
  }

  lemma {:induction false} GrabCounts(free: seq<bool>, k: nat)
    ensures
      var (ids, rest) := Grab(free, k);
      && (|ids| == k <==> |set d | 0 <= d < |free| && free[d]| >= k)
      && |set d | 0 <= d < |free| && free[d]| == |ids| + |set d | 0 <= d < |rest| && rest[d]|
  {
    if k > 0 {
      GrabCounts(free, k - 1);
      var (ids, rest) := Grab(free, k - 1);
      var d := First(rest);
      var before := set e | 0 <= e < |rest| && rest[e];
      if d < |rest| {
        var rest' := rest[d := false];
        var after := set e | 0 <= e < |rest'| && rest'[e];
        assert before == after + {d};
      } else {
        assert before == {};
      }
    }
  }
}
