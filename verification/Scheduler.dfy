/**
  The scheduler as a state machine: every interrupt saves the running process, does its own
  work, handles one message from the shell and dispatches a process.
 */
module Scheduler {
  import opened ShellRing
  import opened Options

  /** In the order in which run queues are searched. */
  datatype Priority = NoPriority | Normal | Idle

  datatype AccessPolicy = All | Ask

  /** The registers of a process; `rax` is where `translate` leaves its result. */
  datatype Context = Context(rax: nat, others: nat)

  datatype Process = Process(id: nat, priority: Priority, policy: AccessPolicy, context: Option<Context>, fpu: nat)

  datatype Request = AccessModule(addr: nat, id: nat)

  datatype Output = ExitProcess(code: nat) | StartProcess(name: nat) | AllowModuleAccess(addr: nat, id: nat)

  datatype Kernel = Kernel(current: Option<Process>, queue: map<Priority, seq<Process>>, blocked: seq<Process>,
                           input: Ring<Request>, output: Ring<Output>, nextId: nat)

  const IDLE_PROCESS_ID := 0
  const INIT_FPU := 0
  const SHELL_QUEUE_SIZE := 8

  // --- The scheduler's operations; no result stands for a panic -------------------------------------

  function Waiting(k: Kernel, p: Priority): (r: seq<Process>) {
    if p in k.queue then k.queue[p] else []
  }

  function AddToQueue(k: Kernel, p: Process): (k': Kernel) {
    Kernel(k.current, k.queue[p.priority := Waiting(k, p.priority) + [p]], k.blocked, k.input, k.output, k.nextId)
  }

  function SetCurrentContext(k: Kernel, cpu: Context, fpu: nat): (r: Option<Kernel>) {
    if k.current.None? || k.current.value.context.Some? then None
    else
      var p := k.current.value;
      Some(Kernel(Some(Process(p.id, p.priority, p.policy, Some(cpu), fpu)), k.queue, k.blocked, k.input, k.output, k.nextId))
  }

  function PreemptCurrent(k: Kernel): (r: Option<Kernel>) {
    if k.current.None? then None
    else Some(AddToQueue(Kernel(None, k.queue, k.blocked, k.input, k.output, k.nextId), k.current.value))
  }

  function BlockCurrent(k: Kernel, addr: nat): (r: Option<Kernel>)
    requires k.input.push < |k.input.slots|
  {
    if k.current.None? then None
    else
      var p := k.current.value;
      Some(Kernel(None, k.queue, k.blocked + [p], Pushed(k.input, AccessModule(addr, p.id)), k.output, k.nextId))
  }

  function ExitCurrent(k: Kernel): (r: Option<Kernel>) {
    if k.current.None? || k.current.value.context.None? then None
    else Some(Kernel(None, k.queue, k.blocked, k.input, k.output, k.nextId))
  }

  function TranslateCurrent(k: Kernel, result: nat): (r: Option<Kernel>) {
    if k.current.None? || k.current.value.context.None? then None
    else
      var p := k.current.value;
      Some(Kernel(Some(Process(p.id, p.priority, p.policy, Some(Context(result, p.context.value.others)), p.fpu)),
                  k.queue, k.blocked, k.input, k.output, k.nextId))
  }

  /**
    A new process under the next identifier, ready to run.  There is no `entry` where the object
    cannot be loaded, has no `main`, or its stack cannot be mapped; the kernel panics then.
   */
  function RunUserProcess(k: Kernel, policy: AccessPolicy, entry: Option<Context>): (r: Option<Kernel>) {
    if entry.None? then None
    else
      Some(AddToQueue(Kernel(k.current, k.queue, k.blocked, k.input, k.output, k.nextId + 1),
                      Process(k.nextId, Normal, policy, entry, INIT_FPU)))
  }

  /** The kernel that boot hands to the scheduler: the shell queued, then the idle process added by `init`. */
  function BootKernel(shell: Option<Context>, idle: Context): (r: Option<Kernel>) {
    var empty := Kernel(None, map[], [], NewRing(SHELL_QUEUE_SIZE), NewRing(SHELL_QUEUE_SIZE), IDLE_PROCESS_ID + 1);
    match RunUserProcess(empty, All, shell)
    case None => None
    case Some(k) => Some(AddToQueue(k, Process(IDLE_PROCESS_ID, Idle, All, Some(idle), INIT_FPU)))
  }

  /** Act on one message.  `granted` says whether the section could be mapped; a process that is refused is dropped. */
  function HandleOutput(k: Kernel, output: Output, granted: bool, entry: Option<Context>): (r: Option<Kernel>) {
    match output
    case ExitProcess(_) =>
      if k.blocked == [] then None
      else Some(Kernel(k.current, k.queue, k.blocked[1..], k.input, k.output, k.nextId))
    case StartProcess(_) => RunUserProcess(k, Ask, entry)
    case AllowModuleAccess(_, id) =>
      if k.blocked == [] || k.blocked[0].id != id then None
      else
        var k1 := Kernel(k.current, k.queue, k.blocked[1..], k.input, k.output, k.nextId);
        Some(if granted then AddToQueue(k1, k.blocked[0]) else k1)
  }

  function PollShell(k: Kernel, granted: bool, entry: Option<Context>): (r: Option<Kernel>)
    requires k.output.pop < |k.output.slots|
  {
    var (ring, output) := Popped(k.output);
    var k1 := Kernel(k.current, k.queue, k.blocked, k.input, ring, k.nextId);
    if output.None? then Some(k1) else HandleOutput(k1, output.value, granted, entry)
  }

  /** The first run queue that is not empty. */
  function FirstQueue(k: Kernel): (p: Option<Priority>)
    ensures p.Some? ==> Waiting(k, p.value) != [] && p.value in k.queue
  {
    if Waiting(k, NoPriority) != [] then Some(NoPriority)
    else if Waiting(k, Normal) != [] then Some(Normal)
    else if Waiting(k, Idle) != [] then Some(Idle)
    else None
  }

  /** Pick a process if none is current, and load the registers of the current one. */
  function Dispatch(k: Kernel, fpu: nat): (r: Option<(Kernel, Context, nat)>) {
    if k.current.Some? then Load(k, fpu)
    else
      match FirstQueue(k)
      case None => None
      case Some(p) =>
        var next := Waiting(k, p)[0];
        Load(Kernel(Some(next), k.queue[p := Waiting(k, p)[1..]], k.blocked, k.input, k.output, k.nextId), next.fpu)
  }

  function Load(k: Kernel, fpu: nat): (r: Option<(Kernel, Context, nat)>)
    requires k.current.Some?
  {
    var p := k.current.value;
    if p.context.None? then None
    else
      Some((Kernel(Some(Process(p.id, p.priority, p.policy, None, p.fpu)), k.queue, k.blocked, k.input, k.output, k.nextId),
            p.context.value, fpu))
  }

  // --- The machine: the kernel, the live registers and the shell ------------------------------------

  /** `held` is the request the shell has taken and not yet answered. */
  datatype Machine = Machine(kernel: Kernel, cpu: Context, fpu: nat, held: Option<Request>)

  datatype Event = Timer | Translate(result: nat) | Exit | Resume | Block(addr: nat)

  datatype Op =
    | Interrupt(event: Event, granted: bool, entry: Option<Context>)
    | Execute(cpu: Context, fpu: nat)
    | ShellPop
    | ShellReply
    | ShellStart(name: nat)

  ghost predicate Rings(k: Kernel) {
    && k.input.push < |k.input.slots| && k.input.pop < |k.input.slots|
    && k.output.push < |k.output.slots| && k.output.pop < |k.output.slots|
  }

  function Body(k: Kernel, event: Event): (r: Option<Kernel>)
    requires Rings(k)
    ensures r.Some? ==> Rings(r.value)
  {
    match event
    case Timer => PreemptCurrent(k)
    case Translate(result) => TranslateCurrent(k, result)
    case Exit => ExitCurrent(k)
    case Resume => Some(k)
    case Block(addr) => BlockCurrent(k, addr)
  }

  /** The kernel once it has saved the running process and done the interrupt's own work. */
  function Interrupted(m: Machine, event: Event): (r: Option<Kernel>)
    requires Rings(m.kernel)
    ensures r.Some? ==> Rings(r.value)
  {
    match SetCurrentContext(m.kernel, m.cpu, m.fpu)
    case None => None
    case Some(k) => Body(k, event)
  }

  function Step(m: Machine, op: Op): (r: Option<Machine>)
    requires Rings(m.kernel)
  {
    var k := m.kernel;
    match op
    case Interrupt(event, granted, entry) =>
      (match Interrupted(m, event)
       case None => None
       case Some(k1) =>
         match PollShell(k1, granted, entry)
         case None => None
         case Some(k2) =>
           match Dispatch(k2, m.fpu)
           case None => None
           case Some((k3, cpu, fpu)) => Some(Machine(k3, cpu, fpu, m.held)))
    case Execute(cpu, fpu) => Some(Machine(k, cpu, fpu, m.held))
    case ShellPop =>
      if m.held.Some? then Some(m)
      else
        var (ring, input) := Popped(k.input);
        Some(Machine(Kernel(k.current, k.queue, k.blocked, ring, k.output, k.nextId), m.cpu, m.fpu, input))
    case ShellReply =>
      if m.held.None? then Some(m)
      else
        var reply := AllowModuleAccess(m.held.value.addr, m.held.value.id);
        Some(Machine(Kernel(k.current, k.queue, k.blocked, k.input, Pushed(k.output, reply), k.nextId), m.cpu, m.fpu, None))
    case ShellStart(name) =>
      Some(Machine(Kernel(k.current, k.queue, k.blocked, k.input, Pushed(k.output, StartProcess(name)), k.nextId), m.cpu, m.fpu, m.held))
  }

  // --- Where processes are ----------------------------------------------------------------------------

  function Ids(ps: seq<Process>): (r: seq<nat>) {
    seq(|ps|, i requires 0 <= i < |ps| => ps[i].id)
  }

  /** How often a process occurs in a list. */
  ghost function Times(ps: seq<Process>, id: nat): (n: nat) {
    if ps == [] then 0 else (if ps[0].id == id then 1 else 0) + Times(ps[1..], id)
  }

  ghost function IsCurrent(k: Kernel, id: nat): (n: nat) {
    if k.current.Some? && k.current.value.id == id then 1 else 0
  }

  /** In how many places a process is. */
  ghost function Places(k: Kernel, id: nat): (n: nat) {
    IsCurrent(k, id) + Times(Waiting(k, NoPriority), id) + Times(Waiting(k, Normal), id) + Times(Waiting(k, Idle), id)
    + Times(k.blocked, id)
  }

  ghost predicate Queued(k: Kernel, p: Process) {
    p in Waiting(k, NoPriority) || p in Waiting(k, Normal) || p in Waiting(k, Idle)
  }

  ghost predicate Parked(k: Kernel, p: Process) {
    Queued(k, p) || p in k.blocked
  }

  ghost predicate Sorted(k: Kernel) {
    && Waiting(k, NoPriority) == []
    && (forall p :: p in Waiting(k, Normal) || p in k.blocked ==> p.priority == Normal)
    && (forall p :: p in Waiting(k, Idle) ==> p.priority == Idle)
    && (k.current.Some? ==> k.current.value.priority != NoPriority)
  }

  ghost predicate IdleThere(k: Kernel) {
    (k.current.Some? && k.current.value.priority == Idle) || Waiting(k, Idle) != []
  }

  /** Each process is in exactly one place, and every process that is not current has its registers saved. */
  ghost predicate Placed(k: Kernel) {
    && (forall id: nat {:trigger Places(k, id)} :: Places(k, id) <= (if id < k.nextId then 1 else 0))
    && Sorted(k) && IdleThere(k)
    && (forall p :: Parked(k, p) ==> p.context.Some?)
  }

  /** In the kernel, before dispatching: the current process is saved too. */
  ghost predicate Saved(k: Kernel) {
    Placed(k) && (k.current.Some? ==> k.current.value.context.Some?)
  }

  /** In user mode: exactly the running process has no saved registers. */
  ghost predicate Running(k: Kernel) {
    Placed(k) && k.current.Some? && k.current.value.context.None?
  }

  lemma {:induction false} TimesSnoc(ps: seq<Process>, p: Process, id: nat)
    ensures Times(ps + [p], id) == Times(ps, id) + if p.id == id then 1 else 0
  {
    if ps == [] {
      assert ps + [p] == [p];
    } else {
      assert (ps + [p])[1..] == ps[1..] + [p];
      TimesSnoc(ps[1..], p, id);
    }
  }

  lemma {:induction false} TimesIn(ps: seq<Process>, p: Process)
    requires p in ps
    ensures Times(ps, p.id) >= 1
  {
    if ps[0] != p {
      TimesIn(ps[1..], p);
    }
  }

  lemma AddPlaces(k: Kernel, p: Process, id: nat)
    ensures Places(AddToQueue(k, p), id) == Places(k, id) + if p.id == id then 1 else 0
  {
    TimesSnoc(Waiting(k, p.priority), p, id);
    var k' := AddToQueue(k, p);
    assert Waiting(k', p.priority) == Waiting(k, p.priority) + [p];
    match p.priority {
      case NoPriority => assert Waiting(k', Normal) == Waiting(k, Normal) && Waiting(k', Idle) == Waiting(k, Idle);
      case Normal => assert Waiting(k', NoPriority) == Waiting(k, NoPriority) && Waiting(k', Idle) == Waiting(k, Idle);
      case Idle => assert Waiting(k', NoPriority) == Waiting(k, NoPriority) && Waiting(k', Normal) == Waiting(k, Normal);
    }
  }

  lemma AddPlaced(k: Kernel, p: Process)
    requires Placed(k) && Places(k, p.id) == 0 && p.id < k.nextId && p.context.Some? && p.priority != NoPriority
    ensures Placed(AddToQueue(k, p))
  {
    var k' := AddToQueue(k, p);
    forall id: nat ensures Places(k', id) <= (if id < k'.nextId then 1 else 0) {
      AddPlaces(k, p, id);
      assert Places(k, id) <= (if id < k.nextId then 1 else 0);
    }
    forall q | Parked(k', q) ensures q.context.Some? {
      if q != p {
        assert Parked(k, q);
      }
    }
  }

  // --- Every operation keeps processes in their places ----------------------------------------------

  lemma SavePlaced(k: Kernel, cpu: Context, fpu: nat)
    requires Running(k)
    ensures SetCurrentContext(k, cpu, fpu).Some? && Saved(SetCurrentContext(k, cpu, fpu).value)
  {
    var k' := SetCurrentContext(k, cpu, fpu).value;
    forall id: nat ensures Places(k', id) == Places(k, id) {
    }
    forall q | Parked(k', q) ensures q.context.Some? {
      assert Parked(k, q);
    }
  }

  /** A kernel without its current process, if that is not the idle one. */
  lemma LeavePlaced(k: Kernel, k': Kernel)
    requires Saved(k) && k.current.Some? && k'.current.None? && k'.queue == k.queue && k'.blocked == k.blocked && k'.nextId == k.nextId
    requires k.current.value.priority == Normal
    ensures Saved(k') && Places(k', k.current.value.id) == 0
  {
    forall id: nat ensures Places(k', id) == Places(k, id) - IsCurrent(k, id) {
    }
    assert Places(k, k.current.value.id) <= 1;
    forall q | Parked(k', q) ensures q.context.Some? {
      assert Parked(k, q);
    }
  }

  lemma PreemptPlaced(k: Kernel)
    requires Saved(k) && k.current.Some?
    ensures PreemptCurrent(k).Some? && Saved(PreemptCurrent(k).value)
    ensures
      var k', p := PreemptCurrent(k).value, k.current.value;
      && k'.current == None && k'.blocked == k.blocked
      && forall r :: Waiting(k', r) == if r == p.priority then Waiting(k, r) + [p] else Waiting(k, r)
  {
    var p := k.current.value;
    var k1 := Kernel(None, k.queue, k.blocked, k.input, k.output, k.nextId);
    var k' := PreemptCurrent(k).value;
    forall id: nat ensures Places(k', id) == Places(k, id) {
      AddPlaces(k1, p, id);
    }
    forall q | Parked(k', q) ensures q.context.Some? {
      if q != p {
        assert Parked(k, q);
      }
    }
  }

  lemma BlockPlaced(k: Kernel, addr: nat)
    requires Saved(k) && k.current.Some? && k.current.value.priority == Normal && Rings(k)
    ensures BlockCurrent(k, addr).Some? && Saved(BlockCurrent(k, addr).value)
    ensures
      var k' := BlockCurrent(k, addr).value;
      k'.current == None && k'.blocked == k.blocked + [k.current.value] && k'.queue == k.queue
  {
    var p := k.current.value;
    var k' := BlockCurrent(k, addr).value;
    forall id: nat ensures Places(k', id) == Places(k, id) {
      TimesSnoc(k.blocked, p, id);
    }
    forall q | Parked(k', q) ensures q.context.Some? {
      if q != p {
        assert Parked(k, q);
      }
    }
  }

  lemma TranslatePlaced(k: Kernel, result: nat)
    requires Saved(k) && k.current.Some?
    ensures TranslateCurrent(k, result).Some? && Saved(TranslateCurrent(k, result).value)
  {
    var k' := TranslateCurrent(k, result).value;
    forall id: nat ensures Places(k', id) == Places(k, id) {
    }
    forall q | Parked(k', q) ensures q.context.Some? {
      assert Parked(k, q);
    }
  }

  /** Taking the front of the blocked list. */
  lemma UnblockPlaced(k: Kernel, k1: Kernel)
    requires Saved(k) && k.blocked != []
    requires k1 == Kernel(k.current, k.queue, k.blocked[1..], k.input, k.output, k.nextId)
    ensures Saved(k1) && Places(k1, k.blocked[0].id) == 0 && k.blocked[0].id < k.nextId && k.blocked[0].context.Some?
    ensures k.blocked[0].priority == Normal
  {
    var p := k.blocked[0];
    forall id: nat ensures Places(k1, id) == Places(k, id) - if p.id == id then 1 else 0 {
    }
    assert Places(k, p.id) <= (if p.id < k.nextId then 1 else 0);
    assert Parked(k, p);
    forall q | Parked(k1, q) ensures q.context.Some? {
      assert Parked(k, q);
    }
  }

  lemma HandlePlaced(k: Kernel, output: Output, granted: bool, entry: Option<Context>)
    requires Saved(k) && HandleOutput(k, output, granted, entry).Some?
    ensures Saved(HandleOutput(k, output, granted, entry).value)
  {
    match output
    case StartProcess(_) =>
      var k1 := Kernel(k.current, k.queue, k.blocked, k.input, k.output, k.nextId + 1);
      StartPlaced(k, k1);
      AddPlaced(k1, Process(k.nextId, Normal, Ask, entry, INIT_FPU));
    case _ =>
      var k1 := Kernel(k.current, k.queue, k.blocked[1..], k.input, k.output, k.nextId);
      UnblockPlaced(k, k1);
      AddPlaced(k1, k.blocked[0]);
  }

  lemma StartPlaced(k: Kernel, k1: Kernel)
    requires Saved(k) && k1 == Kernel(k.current, k.queue, k.blocked, k.input, k.output, k.nextId + 1)
    ensures Saved(k1) && Places(k1, k.nextId) == 0
  {
    forall id: nat ensures Places(k1, id) == Places(k, id) {
    }
    assert Places(k, k.nextId) <= 0;
    forall q | Parked(k1, q) ensures q.context.Some? {
      assert Parked(k, q);
    }
  }

  lemma LoadPlaced(k: Kernel, fpu: nat)
    requires Saved(k) && k.current.Some?
    ensures Load(k, fpu).Some? && Running(Load(k, fpu).value.0)
  {
    var k' := Load(k, fpu).value.0;
    forall id: nat ensures Places(k', id) == Places(k, id) {
    }
    forall q | Parked(k', q) ensures q.context.Some? {
      assert Parked(k, q);
    }
  }

  /** There is always a process to dispatch. */
  lemma PickPlaced(k: Kernel)
    requires Saved(k) && k.current.None?
    ensures FirstQueue(k).Some?
    ensures
      var p := FirstQueue(k).value;
      Saved(Kernel(Some(Waiting(k, p)[0]), k.queue[p := Waiting(k, p)[1..]], k.blocked, k.input, k.output, k.nextId))
  {
    var p := FirstQueue(k).value;
    var k' := Kernel(Some(Waiting(k, p)[0]), k.queue[p := Waiting(k, p)[1..]], k.blocked, k.input, k.output, k.nextId);
    assert Waiting(k', p) == Waiting(k, p)[1..];
    assert Parked(k, Waiting(k, p)[0]);
    forall id: nat ensures Places(k', id) == Places(k, id) {
    }
    forall q | Parked(k', q) ensures q.context.Some? {
      assert Parked(k, q);
    }
  }

  lemma DispatchPlaced(k: Kernel, fpu: nat)
    requires Saved(k)
    ensures Dispatch(k, fpu).Some? && Running(Dispatch(k, fpu).value.0)
  {
    if k.current.Some? {
      LoadPlaced(k, fpu);
    } else {
      PickPlaced(k);
      var p := FirstQueue(k).value;
      LoadPlaced(Kernel(Some(Waiting(k, p)[0]), k.queue[p := Waiting(k, p)[1..]], k.blocked, k.input, k.output, k.nextId),
                 Waiting(k, p)[0].fpu);
    }
  }

  /** If the shell can be started, the boot kernel has every process in its place, saved, with the idle process among them. */
  lemma BootSaved(shell: Option<Context>, idle: Context)
    ensures BootKernel(shell, idle).Some? <==> shell.Some?
    ensures shell.Some? ==> Saved(BootKernel(shell, idle).value)
  {
    if shell.Some? {
      BootPlaced(shell.value, idle);
    }
  }

  lemma BootPlaced(shell: Context, idle: Context)
    ensures BootKernel(Some(shell), idle).Some? && Saved(BootKernel(Some(shell), idle).value)
  {
    var k := BootKernel(Some(shell), idle).value;
    var s, i := Process(1, Normal, All, Some(shell), INIT_FPU), Process(IDLE_PROCESS_ID, Idle, All, Some(idle), INIT_FPU);
    assert Waiting(k, Normal) == [s] && Waiting(k, Idle) == [i] && Waiting(k, NoPriority) == [];
    forall id: nat ensures Places(k, id) <= (if id < k.nextId then 1 else 0) {
      assert Times([s][1..], id) == 0 && Times([i][1..], id) == 0;
    }
  }
}
