/**
  What the scheduler promises over whole runs: nothing panics, processes are neither lost nor
  duplicated, each keeps its own registers, and none waits longer than its place in the queue.
 */
module SchedulerRuns {
  import opened ShellRing
  import opened Scheduler
  import opened ShellProtocol
  import opened Options

  // --- Runs -----------------------------------------------------------------------------------------

  ghost function Next(m: Machine, op: Op): (m': Machine)
    requires Inv(m) && Enabled(m, op)
    ensures Inv(m')
  {
    StepSafe(m, op);
    Step(m, op).value
  }

  ghost predicate Allowed(m: Machine, ops: seq<Op>)
    requires Inv(m)
    decreases |ops|
  {
    ops == [] || (Enabled(m, ops[0]) && Allowed(Next(m, ops[0]), ops[1..]))
  }

  ghost function After(m: Machine, ops: seq<Op>): (m': Machine)
    requires Inv(m) && Allowed(m, ops)
    decreases |ops|
  {
    if ops == [] then m else After(Next(m, ops[0]), ops[1..])
  }

  /**
    In every run that pushes no message into a full ring and starts only what can be started,
    nothing panics, each process is in exactly one place, the idle process is always there, only
    the running process lacks saved registers, and the blocked processes are the ones the shell
    still has to answer, in its order.
   */
  lemma {:induction false} RunSafe(m: Machine, ops: seq<Op>)
    requires Inv(m) && Allowed(m, ops)
    ensures Inv(After(m, ops))
    decreases |ops|
  {
    if ops != [] {
      RunSafe(Next(m, ops[0]), ops[1..]);
    }
  }

  /** The machine after the first `schedule_next`, which finds no message and no current process. */
  ghost function BootMachine(shell: Context, idle: Context, granted: bool, entry: Option<Context>, fpu: nat): (m: Machine)
    ensures Inv(m)
  {
    BootSafe(shell, idle, granted, entry, fpu);
    var (k, cpu, live) := Dispatch(PollShell(BootKernel(Some(shell), idle).value, granted, entry).value, fpu).value;
    Machine(k, cpu, live, None)
  }

  /** The first dispatch, whatever its other parameters: no message is waiting. */
  lemma BootSafe(shell: Context, idle: Context, granted: bool, entry: Option<Context>, fpu: nat)
    ensures BootKernel(Some(shell), idle).Some?
    ensures
      var k := BootKernel(Some(shell), idle).value;
      && Rings(k) && PollShell(k, granted, entry).Some? && Dispatch(PollShell(k, granted, entry).value, fpu).Some?
      && var (k', cpu, live) := Dispatch(PollShell(k, granted, entry).value, fpu).value;
         Inv(Machine(k', cpu, live, None))
  {
    var k := BootKernel(Some(shell), idle).value;
    BootSaved(Some(shell), idle);
    NewRingHolds<Request>(SHELL_QUEUE_SIZE);
    NewRingHolds<Output>(SHELL_QUEUE_SIZE);
    ContentsIs(k.input, []);
    ContentsIs(k.output, []);
    ScheduleSafe(k, None, granted, entry, fpu);
  }

  /** The same of every run from boot. */
  lemma BootRunSafe(shell: Context, idle: Context, granted: bool, entry: Option<Context>, fpu: nat, ops: seq<Op>)
    requires Allowed(BootMachine(shell, idle, granted, entry, fpu), ops)
    ensures Inv(After(BootMachine(shell, idle, granted, entry, fpu), ops))
  {
    RunSafe(BootMachine(shell, idle, granted, entry, fpu), ops);
  }

  // --- The stages of an interrupt ---------------------------------------------------------------------

  /** The kernel after saving, after the interrupt's own work, and after the shell's message. */
  ghost function Save(m: Machine): (k: Kernel)
    requires Inv(m)
    ensures Saved(k) && Rings(k) && k.current.Some?
  {
    SavePlaced(m.kernel, m.cpu, m.fpu);
    MailedRings(m.kernel, m.held);
    SetCurrentContext(m.kernel, m.cpu, m.fpu).value
  }

  ghost function Work(m: Machine, op: Op): (k: Kernel)
    requires Inv(m) && op.Interrupt? && Enabled(m, op)
    ensures Saved(k) && Mailed(k, m.held) && Rings(k) && Body(Save(m), op.event) == Some(k) && k.output == m.kernel.output
  {
    BodySafe(Save(m), m.held, op.event);
    Body(Save(m), op.event).value
  }

  ghost function Poll(m: Machine, op: Op): (k: Kernel)
    requires Inv(m) && op.Interrupt? && Enabled(m, op)
    ensures Saved(k) && PollShell(Work(m, op), op.granted, op.entry) == Some(k)
  {
    PollSafe(Work(m, op), m.held, op.granted, op.entry);
    PollShell(Work(m, op), op.granted, op.entry).value
  }

  lemma NextIs(m: Machine, op: Op)
    requires Inv(m) && op.Interrupt? && Enabled(m, op)
    ensures Dispatch(Poll(m, op), m.fpu).Some?
    ensures var (k, cpu, fpu) := Dispatch(Poll(m, op), m.fpu).value; Next(m, op) == Machine(k, cpu, fpu, m.held)
  {
    DispatchPlaced(Poll(m, op), m.fpu);
    MailedRings(m.kernel, m.held);
  }

  // --- Bounded waiting ----------------------------------------------------------------------------------

  /** Whether an interrupt takes the processor away from the running process. */
  predicate Picks(op: Op) {
    op.Interrupt? && (op.event.Timer? || op.event.Exit? || op.event.Block?)
  }

  /** Whom a step picked, if it picked anyone. */
  ghost function Pick(op: Op, m': Machine): (id: Option<nat>)
    requires Inv(m')
  {
    if Picks(op) then Some(m'.kernel.current.value.id) else None
  }

  /** Only a pick removes a process from the queue, and only the front one; arrivals go behind. */
  ghost predicate Moved(q: seq<Process>, q': seq<Process>, pick: Option<nat>) {
    match pick
    case None => q <= q'
    case Some(id) => q != [] ==> q[0].id == id && q[1..] <= q'
  }

  lemma BodyQueue(k: Kernel, event: Event)
    requires Rings(k) && Body(k, event).Some? && k.current.Some?
    ensures Waiting(k, Normal) <= Waiting(Body(k, event).value, Normal)
    ensures Body(k, event).value.current.None? <==> event.Timer? || event.Exit? || event.Block?
  {
  }

  lemma PollQueue(k: Kernel, granted: bool, entry: Option<Context>)
    requires Saved(k) && Rings(k) && PollShell(k, granted, entry).Some?
    ensures Waiting(k, Normal) <= Waiting(PollShell(k, granted, entry).value, Normal)
    ensures PollShell(k, granted, entry).value.current == k.current
  {
  }

  lemma DispatchQueue(k: Kernel, fpu: nat)
    requires Saved(k) && Dispatch(k, fpu).Some?
    ensures
      var q, k' := Waiting(k, Normal), Dispatch(k, fpu).value.0;
      && k'.current.Some? && (k.current.Some? ==> Waiting(k', Normal) == q)
      && (k.current.None? && q != [] ==> k'.current.value.id == q[0].id && Waiting(k', Normal) == q[1..])
      && (k.current.None? && k'.current.value.priority == Idle ==> q == [] == Waiting(k', Normal))
  {
    if k.current.None? && Waiting(k, Normal) != [] {
      assert Waiting(k, Normal)[0] in Waiting(k, Normal);
    }
  }

  lemma PrefixTail(a: seq<Process>, b: seq<Process>)
    requires a <= b && a != []
    ensures a[0] == b[0] && a[1..] <= b[1..]
  {
  }

  lemma PrefixTrans(a: seq<Process>, b: seq<Process>, c: seq<Process>)
    requires a <= b && b <= c
    ensures a <= c
  {
  }

  lemma QueueStep(m: Machine, op: Op)
    requires Inv(m) && Enabled(m, op)
    ensures Moved(Waiting(m.kernel, Normal), Waiting(Next(m, op).kernel, Normal), Pick(op, Next(m, op)))
  {
    if op.Interrupt? {
      InterruptQueue(m, op);
    } else {
      MailedRings(m.kernel, m.held);
    }
  }

  lemma InterruptQueue(m: Machine, op: Op)
    requires Inv(m) && Enabled(m, op) && op.Interrupt?
    ensures Moved(Waiting(m.kernel, Normal), Waiting(Next(m, op).kernel, Normal), Pick(op, Next(m, op)))
    ensures Picks(op) && Next(m, op).kernel.current.value.priority == Idle ==>
              Waiting(m.kernel, Normal) == [] == Waiting(Next(m, op).kernel, Normal)
  {
    var q, k1, k2 := Waiting(m.kernel, Normal), Work(m, op), Poll(m, op);
    BodyQueue(Save(m), op.event);
    PollQueue(k1, op.granted, op.entry);
    PrefixTrans(q, Waiting(k1, Normal), Waiting(k2, Normal));
    NextIs(m, op);
    DispatchQueue(k2, m.fpu);
    if q != [] {
      PrefixTail(q, Waiting(k2, Normal));
    }
  }

  /** The idle process is picked only when no normal process is ready. */
  lemma IdleOnlyAlone(m: Machine, op: Op)
    requires Inv(m) && Enabled(m, op) && Picks(op) && Next(m, op).kernel.current.value.priority == Idle
    ensures Waiting(m.kernel, Normal) == [] == Waiting(Next(m, op).kernel, Normal)
  {
    InterruptQueue(m, op);
  }

  /** The queue of normal processes after a step, and whom the step picked. */
  datatype Moment = Moment(pick: Option<nat>, queue: seq<Process>)

  ghost function Trace(m: Machine, ops: seq<Op>): (t: seq<Moment>)
    requires Inv(m) && Allowed(m, ops)
    decreases |ops|
  {
    if ops == [] then []
    else
      var m' := Next(m, ops[0]);
      [Moment(Pick(ops[0], m'), Waiting(m'.kernel, Normal))] + Trace(m', ops[1..])
  }

  /** The identifiers of the processes picked, in order. */
  ghost function Log(t: seq<Moment>): (ids: seq<nat>) {
    if t == [] then [] else (if t[0].pick.Some? then [t[0].pick.value] else []) + Log(t[1..])
  }

  ghost function End(q: seq<Process>, t: seq<Moment>): (q': seq<Process>) {
    if t == [] then q else t[|t| - 1].queue
  }

  ghost predicate Chained(q: seq<Process>, t: seq<Moment>)
    decreases |t|
  {
    t == [] || (Moved(q, t[0].queue, t[0].pick) && Chained(t[0].queue, t[1..]))
  }

  lemma {:induction false} TraceChained(m: Machine, ops: seq<Op>)
    requires Inv(m) && Allowed(m, ops)
    ensures Chained(Waiting(m.kernel, Normal), Trace(m, ops))
    ensures End(Waiting(m.kernel, Normal), Trace(m, ops)) == Waiting(After(m, ops).kernel, Normal)
    decreases |ops|
  {
    if ops != [] {
      var m' := Next(m, ops[0]);
      QueueStep(m, ops[0]);
      TraceChained(m', ops[1..]);
      assert Trace(m, ops)[1..] == Trace(m', ops[1..]);
    }
  }

  /** The process at position `i` was the pick at position `i`, or has moved up by the number of picks. */
  ghost predicate Waits(q: seq<Process>, i: nat, log: seq<nat>, end: seq<Process>)
    requires i < |q|
  {
    if i < |log| then log[i] == q[i].id else i - |log| < |end| && end[i - |log|] == q[i]
  }

  lemma WaitMoved(q: seq<Process>, q': seq<Process>, pick: Option<nat>, i: nat, log: seq<nat>, end: seq<Process>)
    requires Moved(q, q', pick) && i < |q|
    requires pick.None? ==> i < |q'| && Waits(q', i, log, end)
    requires pick.Some? && i > 0 ==> i - 1 < |q'| && Waits(q', i - 1, log, end)
    ensures Waits(q, i, (if pick.Some? then [pick.value] else []) + log, end)
  {
    if pick.None? {
      assert q'[i] == q[i];
      assert [] + log == log;
    } else if i > 0 {
      assert q[1..][i - 1] == q[i] == q'[i - 1];
    }
  }

  lemma {:induction false} ChainedWaits(q: seq<Process>, t: seq<Moment>, i: nat)
    requires Chained(q, t) && i < |q|
    ensures Waits(q, i, Log(t), End(q, t))
    decreases |t|
  {
    if t != [] {
      var q', pick := t[0].queue, t[0].pick;
      if pick.None? {
        ChainedWaits(q', t[1..], i);
      } else if i > 0 {
        assert q[1..][i - 1] == q[i];
        ChainedWaits(q', t[1..], i - 1);
      }
      WaitMoved(q, q', pick, i, Log(t[1..]), End(q', t[1..]));
    }
  }

  /**
    A normal process with `i` others ahead of it is the one picked `i` picks later, whatever
    arrives, blocks or is unblocked meanwhile; until then it only moves up.
   */
  lemma BoundedWaiting(m: Machine, ops: seq<Op>, i: nat)
    requires Inv(m) && Allowed(m, ops) && i < |Waiting(m.kernel, Normal)|
    ensures Waits(Waiting(m.kernel, Normal), i, Log(Trace(m, ops)), Waiting(After(m, ops).kernel, Normal))
  {
    TraceChained(m, ops);
    ChainedWaits(Waiting(m.kernel, Normal), Trace(m, ops), i);
  }
}
