/**
  What happens to a process between its own instructions: it stays in exactly one place until
  it exits or is refused access, and it resumes with the registers it was stopped with.
 */
module ProcessState {
  import opened ShellRing
  import opened Scheduler
  import opened ShellProtocol
  import opened SchedulerRuns
  import opened Options

  // --- Conservation of processes --------------------------------------------------------------------

  /** The message from the shell that the next interrupt handles. */
  function Pending(k: Kernel): (output: Option<Output>)
    requires k.output.pop < |k.output.slots|
  {
    Popped(k.output).1
  }

  ghost predicate Exits(m: Machine, op: Op, id: nat) {
    op.Interrupt? && op.event.Exit? && IsCurrent(m.kernel, id) == 1
  }

  /** The shell's answer is for this process and the section cannot be mapped. */
  ghost predicate Refused(m: Machine, op: Op, id: nat)
    requires Rings(m.kernel)
  {
    && op.Interrupt? && !op.granted && Pending(m.kernel).Some?
    && Pending(m.kernel).value.AllowModuleAccess? && Pending(m.kernel).value.id == id
  }

  ghost predicate Born(m: Machine, op: Op, id: nat)
    requires Rings(m.kernel)
  {
    op.Interrupt? && Pending(m.kernel).Some? && Pending(m.kernel).value.StartProcess? && id == m.kernel.nextId
  }

  function One(b: bool): (n: nat) { if b then 1 else 0 }

  lemma BodyPlaces(k: Kernel, event: Event, id: nat)
    requires Rings(k) && k.current.Some? && Body(k, event).Some?
    ensures Places(Body(k, event).value, id) == Places(k, id) - One(event.Exit?) * IsCurrent(k, id)
    ensures Body(k, event).value.output == k.output && Body(k, event).value.nextId == k.nextId
  {
    match event
    case Timer => AddPlaces(Kernel(None, k.queue, k.blocked, k.input, k.output, k.nextId), k.current.value, id);
    case Block(_) => TimesSnoc(k.blocked, k.current.value, id);
    case _ =>
  }

  lemma HandlePlaces(k: Kernel, output: Output, granted: bool, entry: Option<Context>, id: nat)
    requires HandleOutput(k, output, granted, entry).Some? && !output.ExitProcess?
    ensures Places(HandleOutput(k, output, granted, entry).value, id) ==
            Places(k, id) - One(!granted && output.AllowModuleAccess? && output.id == id) + One(output.StartProcess? && id == k.nextId)
  {
    match output
    case StartProcess(_) =>
      AddPlaces(Kernel(k.current, k.queue, k.blocked, k.input, k.output, k.nextId + 1),
                Process(k.nextId, Normal, Ask, entry, INIT_FPU), id);
    case AllowModuleAccess(_, _) =>
      var k1 := Kernel(k.current, k.queue, k.blocked[1..], k.input, k.output, k.nextId);
      FrontPlaces(k, k1, id);
      AddPlaces(k1, k.blocked[0], id);
  }

  /** An exit message ends the process that was blocked first, and panics exactly if none is blocked. */
  lemma ExitRemoves(k: Kernel, code: nat, granted: bool, entry: Option<Context>, id: nat)
    ensures
      match HandleOutput(k, ExitProcess(code), granted, entry)
      case None => k.blocked == []
      case Some(k') =>
        && k.blocked != [] && Places(k', id) == Places(k, id) - One(k.blocked[0].id == id)
        && k'.current == k.current && k'.queue == k.queue && k.blocked == [k.blocked[0]] + k'.blocked
  {
    if k.blocked != [] {
      FrontPlaces(k, HandleOutput(k, ExitProcess(code), granted, entry).value, id);
    }
  }

  lemma FrontPlaces(k: Kernel, k1: Kernel, id: nat)
    requires k.blocked != [] && k1.current == k.current && k1.queue == k.queue && k1.blocked == k.blocked[1..]
    ensures Places(k1, id) == Places(k, id) - One(k.blocked[0].id == id)
  {
  }

  lemma DispatchPlaces(k: Kernel, fpu: nat, id: nat)
    requires Saved(k) && Dispatch(k, fpu).Some?
    ensures Places(Dispatch(k, fpu).value.0, id) == Places(k, id)
  {
  }

  lemma PendingKind(m: Machine, op: Op)
    requires Inv(m) && op.Interrupt? && Enabled(m, op) && Rings(m.kernel)
    ensures Work(m, op).output == m.kernel.output && Work(m, op).nextId == m.kernel.nextId
    ensures Pending(m.kernel).Some? ==> !Pending(m.kernel).value.ExitProcess?
  {
    BodyPlaces(Save(m), op.event, 0);
    PopHolds(m.kernel.output, Contents(m.kernel.output));
  }

  lemma PollPlaces(k: Kernel, granted: bool, entry: Option<Context>, id: nat)
    requires Rings(k) && PollShell(k, granted, entry).Some? && (Pending(k).Some? ==> !Pending(k).value.ExitProcess?)
    ensures Places(PollShell(k, granted, entry).value, id) == Places(k, id)
            - One(!granted && Pending(k).Some? && Pending(k).value.AllowModuleAccess? && Pending(k).value.id == id)
            + One(Pending(k).Some? && Pending(k).value.StartProcess? && id == k.nextId)
  {
    var k1 := Kernel(k.current, k.queue, k.blocked, k.input, Popped(k.output).0, k.nextId);
    assert Places(k1, id) == Places(k, id);
    if Pending(k).Some? {
      HandlePlaces(k1, Pending(k).value, granted, entry, id);
    }
  }

  lemma WorkPlaces(m: Machine, op: Op, id: nat)
    requires Inv(m) && op.Interrupt? && Enabled(m, op)
    ensures Places(Work(m, op), id) == Places(m.kernel, id) - One(Exits(m, op, id))
  {
    var k0 := Save(m);
    assert Places(k0, id) == Places(m.kernel, id) && IsCurrent(k0, id) == IsCurrent(m.kernel, id);
    BodyPlaces(k0, op.event, id);
  }

  lemma PolledPlaces(m: Machine, op: Op, id: nat)
    requires Inv(m) && op.Interrupt? && Enabled(m, op) && Rings(m.kernel)
    ensures Places(Poll(m, op), id) == Places(Work(m, op), id) - One(Refused(m, op, id)) + One(Born(m, op, id))
  {
    var k2 := Poll(m, op);
    PendingKind(m, op);
    PollPlaces(Work(m, op), op.granted, op.entry, id);
  }

  lemma NextPlaces(m: Machine, op: Op, id: nat)
    requires Inv(m) && op.Interrupt? && Enabled(m, op)
    ensures Places(Next(m, op).kernel, id) == Places(Poll(m, op), id)
  {
    NextIs(m, op);
    DispatchPlaces(Poll(m, op), m.fpu, id);
  }

  /** A step removes a process only by its own exit or a refusal, and adds one only by a start. */
  lemma StepConserves(m: Machine, op: Op, id: nat)
    requires Inv(m) && Enabled(m, op) && Rings(m.kernel)
    ensures Places(Next(m, op).kernel, id) ==
            Places(m.kernel, id) - One(Exits(m, op, id)) - One(Refused(m, op, id)) + One(Born(m, op, id))
  {
    if op.Interrupt? {
      WorkPlaces(m, op, id);
      PolledPlaces(m, op, id);
      NextPlaces(m, op, id);
    } else {
      assert Next(m, op).kernel.current == m.kernel.current && Next(m, op).kernel.queue == m.kernel.queue;
    }
  }

  // --- Each process keeps its registers ----------------------------------------------------------------

  /** A process with these registers saved. */
  predicate SavedAs(p: Process, id: nat, cpu: Context, fpu: nat) {
    p.id == id && p.context == Some(cpu) && p.fpu == fpu
  }

  ghost predicate Has(k: Kernel, p: Process) {
    k.current == Some(p) || Parked(k, p)
  }

  /** The registers of a process as it sees them: the live ones if it runs, the saved ones if not. */
  ghost predicate Registers(m: Machine, id: nat, cpu: Context, fpu: nat) {
    || (IsCurrent(m.kernel, id) == 1 && m.cpu == cpu && m.fpu == fpu)
    || exists p {:trigger Parked(m.kernel, p)} :: Parked(m.kernel, p) && SavedAs(p, id, cpu, fpu)
  }

  lemma {:induction false} TimesOne(ps: seq<Process>, p: Process, q: Process)
    requires p in ps && q in ps && p.id == q.id && Times(ps, p.id) <= 1
    ensures p == q
  {
    if ps[0] == p && q != p {
      TimesIn(ps[1..], q);
    } else if ps[0] == q && q != p {
      TimesIn(ps[1..], p);
    } else if ps[0] != p && ps[0] != q {
      TimesOne(ps[1..], p, q);
    }
  }

  lemma ParkedTimes(k: Kernel, p: Process)
    requires Parked(k, p)
    ensures Places(k, p.id) >= 1 + IsCurrent(k, p.id)
  {
    if p in Waiting(k, NoPriority) { TimesIn(Waiting(k, NoPriority), p); }
    if p in Waiting(k, Normal) { TimesIn(Waiting(k, Normal), p); }
    if p in Waiting(k, Idle) { TimesIn(Waiting(k, Idle), p); }
    if p in k.blocked { TimesIn(k.blocked, p); }
  }

  /** A process is not both running and waiting. */
  lemma ParkedNotCurrent(k: Kernel, p: Process)
    requires Placed(k) && Parked(k, p)
    ensures IsCurrent(k, p.id) == 0
  {
    ParkedTimes(k, p);
    assert Places(k, p.id) <= 1;
  }

  lemma SaveHas(m: Machine, id: nat, cpu: Context, fpu: nat) returns (p: Process)
    requires Inv(m) && Registers(m, id, cpu, fpu)
    ensures Has(Save(m), p) && SavedAs(p, id, cpu, fpu)
    ensures IsCurrent(m.kernel, id) == 1 <==> Save(m).current == Some(p)
  {
    var k0 := Save(m);
    if IsCurrent(m.kernel, id) == 1 && m.cpu == cpu && m.fpu == fpu {
      p := k0.current.value;
    } else {
      p :| Parked(m.kernel, p) && SavedAs(p, id, cpu, fpu);
      ParkedNotCurrent(m.kernel, p);
      assert Parked(k0, p);
    }
  }

  lemma BodyHas(k: Kernel, event: Event, p: Process)
    requires Rings(k) && k.current.Some? && Body(k, event).Some? && Has(k, p)
    requires k.current == Some(p) ==> !event.Exit? && !event.Translate?
    ensures Has(Body(k, event).value, p)
  {
    var k' := Body(k, event).value;
    assert p in Waiting(k, NoPriority) ==> p in Waiting(k', NoPriority);
    assert p in Waiting(k, Normal) ==> p in Waiting(k', Normal);
    assert p in Waiting(k, Idle) ==> p in Waiting(k', Idle);
    assert p in k.blocked ==> p in k'.blocked;
    if k.current == Some(p) && event.Timer? {
      assert p in Waiting(k', p.priority);
      match p.priority {
        case NoPriority =>
        case Normal =>
        case Idle =>
      }
    }
  }

  lemma AddHas(k: Kernel, q: Process, p: Process)
    requires Has(k, p) || p == q
    ensures Has(AddToQueue(k, q), p)
  {
    var k' := AddToQueue(k, q);
    assert p in Waiting(k, NoPriority) ==> p in Waiting(k', NoPriority);
    assert p in Waiting(k, Normal) ==> p in Waiting(k', Normal);
    assert p in Waiting(k, Idle) ==> p in Waiting(k', Idle);
    if p == q {
      assert p in Waiting(k', q.priority);
      match q.priority {
        case NoPriority =>
        case Normal =>
        case Idle =>
      }
    }
  }

  lemma HandleHas(k: Kernel, output: Output, granted: bool, entry: Option<Context>, p: Process)
    requires HandleOutput(k, output, granted, entry).Some? && !output.ExitProcess? && Has(k, p)
    requires output.AllowModuleAccess? && !granted ==> output.id != p.id
    ensures Has(HandleOutput(k, output, granted, entry).value, p)
  {
    match output
    case StartProcess(_) =>
      var k1 := Kernel(k.current, k.queue, k.blocked, k.input, k.output, k.nextId + 1);
      assert Has(k1, p);
      AddHas(k1, Process(k.nextId, Normal, Ask, entry, INIT_FPU), p);
    case AllowModuleAccess(_, _) =>
      var k1 := Kernel(k.current, k.queue, k.blocked[1..], k.input, k.output, k.nextId);
      assert k.blocked == [k.blocked[0]] + k.blocked[1..];
      assert Has(k1, p) || p == k.blocked[0];
      if granted {
        AddHas(k1, k.blocked[0], p);
      }
  }

  lemma PollHas(k: Kernel, granted: bool, entry: Option<Context>, p: Process)
    requires Rings(k) && PollShell(k, granted, entry).Some? && (Pending(k).Some? ==> !Pending(k).value.ExitProcess?) && Has(k, p)
    requires !granted && Pending(k).Some? && Pending(k).value.AllowModuleAccess? ==> Pending(k).value.id != p.id
    ensures Has(PollShell(k, granted, entry).value, p)
  {
    var k1 := Kernel(k.current, k.queue, k.blocked, k.input, Popped(k.output).0, k.nextId);
    assert Has(k1, p);
    if Pending(k).Some? {
      HandleHas(k1, Pending(k).value, granted, entry, p);
    }
  }

  lemma DispatchHas(k: Kernel, fpu: nat, p: Process, held: Option<Request>)
    requires Saved(k) && Dispatch(k, fpu).Some? && Has(k, p) && p.context.Some?
    requires k.current.Some? ==> k.current.value.fpu == fpu
    ensures var (k', cpu, fpu') := Dispatch(k, fpu).value; Registers(Machine(k', cpu, fpu', held), p.id, p.context.value, p.fpu)
  {
    var (k', cpu, fpu') := Dispatch(k, fpu).value;
    if k.current.Some? {
      assert Parked(k, p) ==> Parked(k', p);
    } else {
      var r := FirstQueue(k).value;
      var q := Waiting(k, r);
      assert q == [q[0]] + q[1..];
      assert Waiting(k', r) == q[1..];
      if p != q[0] {
        assert Parked(k', p);
      }
    }
  }

  /** The registers of a process after a step, as only the process itself can change them. */
  ghost function Own(m: Machine, op: Op, id: nat, cpu: Context, fpu: nat): (r: (Context, nat)) {
    if IsCurrent(m.kernel, id) == 1 && op.Execute? then (op.cpu, op.fpu)
    else if IsCurrent(m.kernel, id) == 1 && op.Interrupt? && op.event.Translate? then (Context(op.event.result, cpu.others), fpu)
    else (cpu, fpu)
  }

  lemma WorkHas(m: Machine, op: Op, id: nat, cpu: Context, fpu: nat) returns (p: Process)
    requires Inv(m) && op.Interrupt? && Enabled(m, op) && Registers(m, id, cpu, fpu) && !Exits(m, op, id)
    ensures var (cpu', fpu') := Own(m, op, id, cpu, fpu); Has(Work(m, op), p) && SavedAs(p, id, cpu', fpu')
    ensures Work(m, op).current.Some? ==> Work(m, op).current.value.fpu == m.fpu
  {
    p := SaveHas(m, id, cpu, fpu);
    var k0, k1 := Save(m), Work(m, op);
    if k0.current == Some(p) && op.event.Translate? {
      p := k1.current.value;
    } else {
      BodyHas(k0, op.event, p);
    }
  }

  lemma InterruptRegisters(m: Machine, op: Op, id: nat, cpu: Context, fpu: nat)
    requires Inv(m) && op.Interrupt? && Enabled(m, op) && Rings(m.kernel)
    requires Registers(m, id, cpu, fpu) && !Exits(m, op, id) && !Refused(m, op, id)
    ensures var (cpu', fpu') := Own(m, op, id, cpu, fpu); Registers(Next(m, op), id, cpu', fpu')
  {
    var p := WorkHas(m, op, id, cpu, fpu);
    var k1, k2 := Work(m, op), Poll(m, op);
    PendingKind(m, op);
    PollHas(k1, op.granted, op.entry, p);
    PollQueue(k1, op.granted, op.entry);
    NextIs(m, op);
    DispatchHas(k2, m.fpu, p, m.held);
  }

  lemma WorkFpu(m: Machine, op: Op)
    requires Inv(m) && op.Interrupt? && Enabled(m, op)
    ensures Work(m, op).current.Some? ==> Work(m, op).current.value.fpu == m.fpu
  {
    assert Save(m).current.value.fpu == m.fpu;
  }

  /** A process of this kind is in the kernel. */
  ghost predicate Known(k: Kernel, id: nat, priority: Priority, policy: AccessPolicy) {
    exists p {:trigger Has(k, p)} :: Has(k, p) && p.id == id && p.priority == priority && p.policy == policy
  }

  /** The message says to start a process: it gets the next identifier, its entry registers and a fresh FPU state, and must ask. */
  lemma BornRegisters(m: Machine, op: Op)
    requires Inv(m) && op.Interrupt? && Enabled(m, op) && Rings(m.kernel)
    requires Pending(m.kernel).Some? && Pending(m.kernel).value.StartProcess?
    ensures op.entry.Some? && Registers(Next(m, op), m.kernel.nextId, op.entry.value, 0)
    ensures Known(Next(m, op).kernel, m.kernel.nextId, Normal, Ask) && Next(m, op).kernel.nextId == m.kernel.nextId + 1
  {
    var k1, k2 := Work(m, op), Poll(m, op);
    PendingKind(m, op);
    PopHolds(m.kernel.output, Contents(m.kernel.output));
    var k0 := Kernel(k1.current, k1.queue, k1.blocked, k1.input, Popped(k1.output).0, k1.nextId + 1);
    var p := Process(k1.nextId, Normal, Ask, op.entry, INIT_FPU);
    assert k2 == AddToQueue(k0, p);
    AddHas(k0, p, p);
    WorkFpu(m, op);
    PollQueue(k1, op.granted, op.entry);
    NextIs(m, op);
    DispatchHas(k2, m.fpu, p, m.held);
    DispatchKnows(k2, m.fpu, p);
  }

  lemma DispatchKnows(k: Kernel, fpu: nat, p: Process)
    requires Saved(k) && Dispatch(k, fpu).Some? && Has(k, p)
    ensures Known(Dispatch(k, fpu).value.0, p.id, p.priority, p.policy) && Dispatch(k, fpu).value.0.nextId == k.nextId
  {
    var k' := Dispatch(k, fpu).value.0;
    if k.current.Some? {
      if k.current == Some(p) {
        assert Has(k', k'.current.value);
      } else {
        assert Has(k', p);
      }
    } else {
      var r := FirstQueue(k).value;
      var q := Waiting(k, r);
      assert q == [q[0]] + q[1..] && Waiting(k', r) == q[1..];
      if p == q[0] {
        assert Has(k', k'.current.value);
      } else {
        assert Has(k', p);
      }
    }
  }

  /** The stages of an interrupt keep every process, with its priority and its policy, that does not go away. */
  lemma WorkKnows(m: Machine, op: Op, p: Process)
    requires Inv(m) && op.Interrupt? && Enabled(m, op) && Has(m.kernel, p) && !Exits(m, op, p.id)
    ensures exists q {:trigger Has(Work(m, op), q)} :: Has(Work(m, op), q) && (q.id, q.priority, q.policy) == (p.id, p.priority, p.policy)
  {
    var k0, k1 := Save(m), Work(m, op);
    if m.kernel.current == Some(p) {
      var q := k0.current.value;
      assert Has(k0, q) && IsCurrent(m.kernel, p.id) == 1;
      if op.event.Translate? {
        assert Has(k1, k1.current.value);
      } else {
        BodyHas(k0, op.event, q);
      }
    } else {
      assert Parked(k0, p);
      ParkedNotCurrent(m.kernel, p);
      BodyHas(k0, op.event, p);
    }
  }

  /** No step changes the priority or the access policy of a process. */
  lemma StepKind(m: Machine, op: Op, id: nat, priority: Priority, policy: AccessPolicy)
    requires Inv(m) && Enabled(m, op) && Rings(m.kernel) && Known(m.kernel, id, priority, policy)
    requires !Exits(m, op, id) && !Refused(m, op, id)
    ensures Known(Next(m, op).kernel, id, priority, policy)
  {
    var p :| Has(m.kernel, p) && p.id == id && p.priority == priority && p.policy == policy;
    if op.Interrupt? {
      WorkKnows(m, op, p);
      var k1, k2 := Work(m, op), Poll(m, op);
      var q :| Has(k1, q) && (q.id, q.priority, q.policy) == (p.id, p.priority, p.policy);
      PendingKind(m, op);
      PollHas(k1, op.granted, op.entry, q);
      NextIs(m, op);
      DispatchKnows(k2, m.fpu, q);
    } else {
      assert Has(Next(m, op).kernel, p);
    }
  }

  lemma SameParked(k: Kernel, k': Kernel, p: Process)
    requires k'.queue == k.queue && k'.blocked == k.blocked
    ensures Parked(k', p) <==> Parked(k, p)
  {
  }

  /** No step of the kernel, the shell or another process changes a process's registers. */
  lemma StepRegisters(m: Machine, op: Op, id: nat, cpu: Context, fpu: nat)
    requires Inv(m) && Enabled(m, op) && Rings(m.kernel)
    requires Registers(m, id, cpu, fpu) && !Exits(m, op, id) && !Refused(m, op, id)
    ensures var (cpu', fpu') := Own(m, op, id, cpu, fpu); Registers(Next(m, op), id, cpu', fpu')
  {
    if op.Interrupt? {
      InterruptRegisters(m, op, id, cpu, fpu);
    } else {
      var m' := Next(m, op);
      assert m'.kernel.current == m.kernel.current && m'.kernel.queue == m.kernel.queue && m'.kernel.blocked == m.kernel.blocked;
      if p :| Parked(m.kernel, p) && SavedAs(p, id, cpu, fpu) {
        ParkedNotCurrent(m.kernel, p);
        SameParked(m.kernel, m'.kernel, p);
      }
    }
  }

  /** The process neither runs instructions, nor has an address translated, nor goes away. */
  ghost predicate Untouched(m: Machine, ops: seq<Op>, id: nat)
    requires Inv(m) && Allowed(m, ops)
    decreases |ops|
  {
    ops == [] ||
    (MailedRings(m.kernel, m.held);
     && (IsCurrent(m.kernel, id) == 1 ==> !ops[0].Execute? && !(ops[0].Interrupt? && ops[0].event.Translate?))
     && !Exits(m, ops[0], id) && !Refused(m, ops[0], id)
     && Untouched(Next(m, ops[0]), ops[1..], id))
  }

  /** However long it is stopped, and whatever else runs, a process resumes with the registers it was stopped with. */
  lemma {:induction false} RunRegisters(m: Machine, ops: seq<Op>, id: nat, cpu: Context, fpu: nat)
    requires Inv(m) && Allowed(m, ops) && Untouched(m, ops, id) && Registers(m, id, cpu, fpu)
    ensures Registers(After(m, ops), id, cpu, fpu)
    decreases |ops|
  {
    if ops != [] {
      MailedRings(m.kernel, m.held);
      StepRegisters(m, ops[0], id, cpu, fpu);
      RunRegisters(Next(m, ops[0]), ops[1..], id, cpu, fpu);
    }
  }

  lemma ParkedOne(k: Kernel, p: Process, q: Process)
    requires Placed(k) && Parked(k, p) && Parked(k, q) && p.id == q.id
    ensures p == q
  {
    assert Places(k, p.id) <= 1;
    var normal, idle := Waiting(k, Normal), Waiting(k, Idle);
    if p in normal { TimesIn(normal, p); }
    if q in normal { TimesIn(normal, q); }
    if p in idle { TimesIn(idle, p); }
    if q in idle { TimesIn(idle, q); }
    if p in k.blocked { TimesIn(k.blocked, p); }
    if q in k.blocked { TimesIn(k.blocked, q); }
    if p in normal && q in normal { TimesOne(normal, p, q); }
    if p in idle && q in idle { TimesOne(idle, p, q); }
    if p in k.blocked && q in k.blocked { TimesOne(k.blocked, p, q); }
  }

  /** A process has one set of registers. */
  lemma RegistersUnique(m: Machine, id: nat, cpu: Context, fpu: nat, cpu': Context, fpu': nat)
    requires Inv(m) && Registers(m, id, cpu, fpu) && Registers(m, id, cpu', fpu')
    ensures cpu == cpu' && fpu == fpu'
  {
    if p :| Parked(m.kernel, p) && SavedAs(p, id, cpu, fpu) {
      ParkedNotCurrent(m.kernel, p);
      var q :| Parked(m.kernel, q) && SavedAs(q, id, cpu', fpu');
      ParkedOne(m.kernel, p, q);
    } else if q :| Parked(m.kernel, q) && SavedAs(q, id, cpu', fpu') {
      ParkedNotCurrent(m.kernel, q);
    }
  }
}
