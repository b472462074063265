/**
  The kernel/shell message protocol: blocked processes are answered in the order in which they
  were blocked, so the kernel's checks on the shell's answers never fail.
 */
module ShellProtocol {
  import opened ShellRing
  import opened Scheduler
  import opened Options

  /** The processes that the shell's pending messages unblock. */
  function Replies(outputs: seq<Output>): (ids: seq<nat>) {
    if outputs == [] then []
    else (if outputs[0].AllowModuleAccess? then [outputs[0].id] else []) + Replies(outputs[1..])
  }

  function Starts(outputs: seq<Output>): (n: nat) {
    if outputs == [] then 0 else (if outputs[0].StartProcess? then 1 else 0) + Starts(outputs[1..])
  }

  ghost predicate NoExit(outputs: seq<Output>) {
    forall i :: 0 <= i < |outputs| ==> !outputs[i].ExitProcess?
  }

  function Asked(inputs: seq<Request>): (ids: seq<nat>) {
    seq(|inputs|, i requires 0 <= i < |inputs| => inputs[i].id)
  }

  function HeldId(held: Option<Request>): (ids: seq<nat>) {
    if held.Some? then [held.value.id] else []
  }

  lemma {:induction false} OutputsCount(outputs: seq<Output>)
    requires NoExit(outputs)
    ensures |outputs| == |Replies(outputs)| + Starts(outputs)
  {
    if outputs != [] {
      OutputsCount(outputs[1..]);
    }
  }

  lemma {:induction false} OutputsSnoc(outputs: seq<Output>, x: Output)
    ensures Starts(outputs + [x]) == Starts(outputs) + if x.StartProcess? then 1 else 0
    ensures Replies(outputs + [x]) == if x.AllowModuleAccess? then Replies(outputs) + [x.id] else Replies(outputs)
    ensures NoExit(outputs) && !x.ExitProcess? ==> NoExit(outputs + [x])
  {
    if outputs == [] {
      assert outputs + [x] == [x];
    } else {
      assert (outputs + [x])[1..] == outputs[1..] + [x];
      OutputsSnoc(outputs[1..], x);
    }
  }

  /** The blocked processes, in order: those answered, the one being answered, those still to be answered. */
  ghost predicate InOrder(blocked: seq<Process>, outputs: seq<Output>, held: Option<Request>, inputs: seq<Request>) {
    NoExit(outputs) && Ids(blocked) == Replies(outputs) + HeldId(held) + Asked(inputs)
  }

  ghost predicate Mailed(k: Kernel, held: Option<Request>) {
    && |k.input.slots| == |k.output.slots| == SHELL_QUEUE_SIZE
    && IsQueue(k.input) && IsQueue(k.output)
    && InOrder(k.blocked, Contents(k.output), held, Contents(k.input))
  }

  ghost predicate Inv(m: Machine) {
    Running(m.kernel) && Mailed(m.kernel, m.held)
  }

  /** The idle process is only ever preempted, and only a process that must ask is blocked. */
  ghost predicate Possible(m: Machine, op: Op)
    requires Inv(m)
  {
    op.Interrupt? ==>
      && (op.event.Timer? || m.kernel.current.value.priority == Normal)
      && (op.event.Block? ==> m.kernel.current.value.policy == Ask)
  }

  /** The ring a step writes to, if it writes to one, is not full. */
  ghost predicate Fits(m: Machine, op: Op)
    requires Inv(m)
  {
    match op
    case Interrupt(event, _, _) => event.Block? ==> |Contents(m.kernel.input)| < SHELL_QUEUE_SIZE
    case ShellReply => m.held.Some? ==> |Contents(m.kernel.output)| < SHELL_QUEUE_SIZE
    case ShellStart(_) => |Contents(m.kernel.output)| < SHELL_QUEUE_SIZE
    case _ => true
  }

  /** The next message from the shell asks for no process, or for one that can be started. */
  ghost predicate Startable(k: Kernel, entry: Option<Context>)
    requires IsQueue(k.output)
  {
    Contents(k.output) != [] && Contents(k.output)[0].StartProcess? ==> entry.Some?
  }

  ghost predicate Starting(m: Machine, op: Op)
    requires Inv(m)
  {
    op.Interrupt? ==> Startable(m.kernel, op.entry)
  }

  ghost predicate Enabled(m: Machine, op: Op)
    requires Inv(m)
  {
    Possible(m, op) && Fits(m, op) && Starting(m, op)
  }

  // --- Each side keeps the order ------------------------------------------------------------------------

  lemma InOrderLengths(blocked: seq<Process>, outputs: seq<Output>, held: Option<Request>, inputs: seq<Request>)
    requires InOrder(blocked, outputs, held, inputs)
    ensures |blocked| == |Replies(outputs)| + |HeldId(held)| + |inputs| && |outputs| == |Replies(outputs)| + Starts(outputs)
  {
    OutputsCount(outputs);
    assert |Ids(blocked)| == |blocked|;
  }

  lemma BlockedOrder(blocked: seq<Process>, outputs: seq<Output>, held: Option<Request>, inputs: seq<Request>, p: Process, addr: nat)
    requires InOrder(blocked, outputs, held, inputs)
    ensures InOrder(blocked + [p], outputs, held, inputs + [AccessModule(addr, p.id)])
  {
    assert Ids(blocked + [p]) == Ids(blocked) + [p.id];
    assert Asked(inputs + [AccessModule(addr, p.id)]) == Asked(inputs) + [p.id];
  }

  lemma HandledOrder(blocked: seq<Process>, outputs: seq<Output>, held: Option<Request>, inputs: seq<Request>)
    requires InOrder(blocked, outputs, held, inputs) && outputs != []
    ensures outputs[0].AllowModuleAccess? ==>
      blocked != [] && blocked[0].id == outputs[0].id && InOrder(blocked[1..], outputs[1..], held, inputs)
    ensures outputs[0].StartProcess? ==> InOrder(blocked, outputs[1..], held, inputs)
    ensures !outputs[0].ExitProcess?
  {
    if outputs[0].AllowModuleAccess? {
      assert Ids(blocked)[0] == outputs[0].id;
      assert Ids(blocked[1..]) == Ids(blocked)[1..];
    }
  }

  lemma PoppedOrder(blocked: seq<Process>, outputs: seq<Output>, inputs: seq<Request>)
    requires InOrder(blocked, outputs, None, inputs) && inputs != []
    ensures InOrder(blocked, outputs, Some(inputs[0]), inputs[1..])
  {
    assert Asked(inputs) == [inputs[0].id] + Asked(inputs[1..]);
  }

  lemma RepliedOrder(blocked: seq<Process>, outputs: seq<Output>, request: Request, inputs: seq<Request>)
    requires InOrder(blocked, outputs, Some(request), inputs)
    ensures InOrder(blocked, outputs + [AllowModuleAccess(request.addr, request.id)], None, inputs)
  {
    OutputsSnoc(outputs, AllowModuleAccess(request.addr, request.id));
    assert Replies(outputs) + [request.id] + [] == Replies(outputs) + [request.id];
    assert HeldId(Some(request)) == [request.id] && HeldId(None) == [];
  }

  lemma StartedOrder(blocked: seq<Process>, outputs: seq<Output>, held: Option<Request>, inputs: seq<Request>, name: nat)
    requires InOrder(blocked, outputs, held, inputs)
    ensures InOrder(blocked, outputs + [StartProcess(name)], held, inputs)
  {
    OutputsSnoc(outputs, StartProcess(name));
  }

  // --- Each step is safe ----------------------------------------------------------------------------------

  lemma MailedRings(k: Kernel, held: Option<Request>)
    requires Mailed(k, held)
    ensures Rings(k)
  {
    assert Holds(k.input, Contents(k.input)) && Holds(k.output, Contents(k.output));
  }

  lemma BodySafe(k: Kernel, held: Option<Request>, event: Event)
    requires Saved(k) && k.current.Some? && Mailed(k, held) && Rings(k)
    requires event.Timer? || k.current.value.priority == Normal
    requires event.Block? ==> |Contents(k.input)| < SHELL_QUEUE_SIZE
    ensures Body(k, event).Some? && Saved(Body(k, event).value) && Mailed(Body(k, event).value, held)
    ensures Body(k, event).value.output == k.output
  {
    match event
    case Timer => PreemptPlaced(k);
    case Translate(result) => TranslatePlaced(k, result);
    case Exit => LeavePlaced(k, ExitCurrent(k).value);
    case Resume =>
    case Block(addr) =>
      BlockPlaced(k, addr);
      var p := k.current.value;
      var inputs := Contents(k.input);
      BlockedOrder(k.blocked, Contents(k.output), held, inputs, p, addr);
      PushHolds(k.input, inputs, AccessModule(addr, p.id));
      ContentsIs(Pushed(k.input, AccessModule(addr, p.id)), inputs + [AccessModule(addr, p.id)]);
  }

  /** Neither the check of the answered process nor the demand for a blocked process fails. */
  lemma PollSafe(k: Kernel, held: Option<Request>, granted: bool, entry: Option<Context>)
    requires Saved(k) && Mailed(k, held) && Rings(k) && Startable(k, entry)
    ensures PollShell(k, granted, entry).Some? && Saved(PollShell(k, granted, entry).value)
    ensures Mailed(PollShell(k, granted, entry).value, held)
  {
    var outputs := Contents(k.output);
    PopHolds(k.output, outputs);
    if outputs == [] {
      assert PollShell(k, granted, entry).value == k;
    } else {
      var ring := Popped(k.output).0;
      ContentsIs(ring, outputs[1..]);
      HandledOrder(k.blocked, outputs, held, Contents(k.input));
      var k1 := Kernel(k.current, k.queue, k.blocked, k.input, ring, k.nextId);
      SameSaved(k, k1);
      HandlePlaced(k1, outputs[0], granted, entry);
    }
  }

  lemma SameSaved(k: Kernel, k1: Kernel)
    requires Placed(k) && k1.current == k.current && k1.queue == k.queue && k1.blocked == k.blocked && k1.nextId == k.nextId
    ensures Placed(k1)
  {
    forall id: nat ensures Places(k1, id) == Places(k, id) {
    }
    forall q | Parked(k1, q) ensures q.context.Some? {
      assert Parked(k, q);
    }
  }

  lemma InterruptSafe(m: Machine, event: Event, granted: bool, entry: Option<Context>)
    requires Inv(m) && Rings(m.kernel) && Enabled(m, Interrupt(event, granted, entry))
    ensures Step(m, Interrupt(event, granted, entry)).Some? && Inv(Step(m, Interrupt(event, granted, entry)).value)
  {
    SavePlaced(m.kernel, m.cpu, m.fpu);
    var k0 := SetCurrentContext(m.kernel, m.cpu, m.fpu).value;
    assert Mailed(k0, m.held);
    BodySafe(k0, m.held, event);
    ScheduleSafe(Body(k0, event).value, m.held, granted, entry, m.fpu);
  }

  /** `schedule_next` on any saved kernel: a message is handled and a process dispatched. */
  lemma ScheduleSafe(k: Kernel, held: Option<Request>, granted: bool, entry: Option<Context>, fpu: nat)
    requires Saved(k) && Mailed(k, held) && Rings(k) && Startable(k, entry)
    ensures PollShell(k, granted, entry).Some? && Dispatch(PollShell(k, granted, entry).value, fpu).Some?
    ensures
      var k' := Dispatch(PollShell(k, granted, entry).value, fpu).value.0;
      Running(k') && Mailed(k', held)
  {
    PollSafe(k, held, granted, entry);
    var k2 := PollShell(k, granted, entry).value;
    DispatchPlaced(k2, fpu);
    assert Mailed(Dispatch(k2, fpu).value.0, held);
  }

  lemma ShellSafe(m: Machine, op: Op)
    requires Inv(m) && Rings(m.kernel) && Enabled(m, op) && (op.ShellPop? || op.ShellReply? || op.ShellStart?)
    ensures Step(m, op).Some? && Inv(Step(m, op).value)
  {
    var k := m.kernel;
    var inputs, outputs := Contents(k.input), Contents(k.output);
    match op
    case ShellPop =>
      PopHolds(k.input, inputs);
      if m.held.None? && inputs != [] {
        ContentsIs(Popped(k.input).0, inputs[1..]);
        PoppedOrder(k.blocked, outputs, inputs);
      }
      SameSaved(k, Step(m, op).value.kernel);
    case ShellReply =>
      if m.held.Some? {
        var reply := AllowModuleAccess(m.held.value.addr, m.held.value.id);
        RepliedOrder(k.blocked, outputs, m.held.value, inputs);
        PushHolds(k.output, outputs, reply);
        ContentsIs(Pushed(k.output, reply), outputs + [reply]);
      }
      SameSaved(k, Step(m, op).value.kernel);
    case ShellStart(name) =>
      StartedOrder(k.blocked, outputs, m.held, inputs, name);
      PushHolds(k.output, outputs, StartProcess(name));
      ContentsIs(Pushed(k.output, StartProcess(name)), outputs + [StartProcess(name)]);
      SameSaved(k, Step(m, op).value.kernel);
  }

  lemma StepSafe(m: Machine, op: Op)
    requires Inv(m) && Enabled(m, op)
    ensures Rings(m.kernel) && Step(m, op).Some? && Inv(Step(m, op).value)
  {
    MailedRings(m.kernel, m.held);
    match op
    case Interrupt(event, granted, entry) => InterruptSafe(m, event, granted, entry);
    case Execute(_, _) =>
    case _ => ShellSafe(m, op);
  }

  // --- The guard is exact ---------------------------------------------------------------------------------

  lemma FullOverflows(m: Machine, op: Op)
    requires Inv(m) && Rings(m.kernel) && Possible(m, op) && !Fits(m, op) && Step(m, op).Some?
    ensures !Inv(Step(m, op).value)
  {
    var k, k' := m.kernel, Step(m, op).value.kernel;
    match op
    case Interrupt(event, granted, entry) =>
      var request := AccessModule(event.addr, k.current.value.id);
      FullPushNoQueue(k.input, Contents(k.input), request);
      assert k'.input == Pushed(k.input, request);
    case ShellReply =>
      FullPushNoQueue(k.output, Contents(k.output), AllowModuleAccess(m.held.value.addr, m.held.value.id));
    case ShellStart(name) =>
      FullPushNoQueue(k.output, Contents(k.output), StartProcess(name));
    case _ =>
  }

  /** A start that cannot be carried out stops the kernel. */
  lemma FailedStartPanics(m: Machine, op: Op)
    requires Inv(m) && Rings(m.kernel) && !Starting(m, op)
    ensures Step(m, op) == None
  {
    var outputs := Contents(m.kernel.output);
    PopHolds(m.kernel.output, outputs);
    if Interrupted(m, op.event).Some? {
      assert Interrupted(m, op.event).value.output == m.kernel.output;
    }
  }

  /**
    A possible step goes through and keeps the answers in order exactly if the ring it writes to
    is not full and the process it is asked to start can be started.
   */
  lemma StepKeepsOrderIff(m: Machine, op: Op)
    requires Inv(m) && Possible(m, op)
    ensures Rings(m.kernel) && (Step(m, op).Some? && Inv(Step(m, op).value) <==> Fits(m, op) && Starting(m, op))
  {
    MailedRings(m.kernel, m.held);
    if !Starting(m, op) {
      FailedStartPanics(m, op);
    } else if Fits(m, op) {
      StepSafe(m, op);
    } else if Step(m, op).Some? {
      FullOverflows(m, op);
    }
  }

  /** No ring is full while the blocked processes and the pending starts together are fewer than eight. */
  lemma FewWaitingFit(m: Machine, op: Op)
    requires Inv(m) && Possible(m, op)
    requires |m.kernel.blocked| + Starts(Contents(m.kernel.output)) < 8 + if op.ShellReply? then 1 else 0
    ensures Fits(m, op)
  {
    InOrderLengths(m.kernel.blocked, Contents(m.kernel.output), m.held, Contents(m.kernel.input));
  }

  // --- What a full ring leads to ------------------------------------------------------------------------

  /** With eight requests unread, a ninth takes the place of the oldest; its answer trips the check of the blocked process. */
  lemma NinthRequestPanics(k: Kernel, held: Option<Request>, addr: nat, granted: bool, entry: Option<Context>)
    requires Saved(k) && k.current.Some? && Mailed(k, held) && Rings(k) && |Contents(k.input)| == 8
    ensures
      var k' := BlockCurrent(k, addr).value;
      && Popped(k'.input).1 == Some(AccessModule(addr, k.current.value.id))
      && HandleOutput(k', AllowModuleAccess(addr, k.current.value.id), granted, entry) == None
  {
    var p, inputs := k.current.value, Contents(k.input);
    PushFull(k.input, inputs, AccessModule(addr, p.id));
    var ring := Pushed(k.input, AccessModule(addr, p.id));
    assert SlotHolds(ring, [AccessModule(addr, p.id)] + inputs[1..], 0);
    InOrderLengths(k.blocked, Contents(k.output), held, inputs);
    assert Places(k, p.id) <= 1;
    assert k.blocked[0].id != p.id;
  }

  lemma {:induction false} TimesTwice(ps: seq<Process>, i: nat, j: nat)
    requires i < j < |ps| && ps[i].id == ps[j].id
    ensures Times(ps, ps[i].id) >= 2
  {
    if i == 0 {
      assert ps[j] in ps[1..] by {
        assert ps[1..][j - 1] == ps[j];
      }
      TimesIn(ps[1..], ps[j]);
    } else {
      TimesTwice(ps[1..], i - 1, j - 1);
    }
  }

  /**
    With eight messages to the kernel unread, an answer takes the place of the oldest.  It trips
    the check exactly if another answer was pending; otherwise only a start message is lost.
   */
  lemma NinthAnswerPanicsIff(k: Kernel, request: Request, granted: bool, entry: Option<Context>)
    requires Placed(k) && Mailed(k, Some(request)) && Rings(k) && |Contents(k.output)| == 8
    ensures
      var answer := AllowModuleAccess(request.addr, request.id);
      && Popped(Pushed(k.output, answer)).1 == Some(answer)
      && (HandleOutput(k, answer, granted, entry) == None <==> Replies(Contents(k.output)) != [])
  {
    var outputs, answer := Contents(k.output), AllowModuleAccess(request.addr, request.id);
    PushFull(k.output, outputs, answer);
    assert SlotHolds(Pushed(k.output, answer), [answer] + outputs[1..], 0);
    InOrderLengths(k.blocked, outputs, Some(request), Contents(k.input));
    var at := |Replies(outputs)|;
    assert Ids(k.blocked)[at] == request.id == k.blocked[at].id;
    assert Places(k, request.id) <= 1;
    if at > 0 && k.blocked[0].id == request.id {
      TimesTwice(k.blocked, 0, at);
    }
  }
}
