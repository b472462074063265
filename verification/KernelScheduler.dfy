/** The scheduler in place: the object whose fields the interrupt handlers update. */
module KernelScheduler {
  import opened ShellRing
  import opened Scheduler
  import opened ShellProtocol
  import opened Options

  class KernelScheduler {
    var current: Option<Process>
    var queue: map<Priority, seq<Process>>
    var blocked: seq<Process>
    const input: SizedQueue<Request>
    const output: SizedQueue<Output>
    var nextId: nat

    ghost predicate Valid()
      reads this, input, output
    {
      input.Valid() && output.Valid() && input.inner as object != output.inner
    }

    ghost function Value(): (k: Kernel)
      requires Valid()
      reads this, input, input.inner, output, output.inner
      ensures Rings(k)
    {
      Kernel(current, queue, blocked, input.Value(), output.Value(), nextId)
    }

    /** Boot: the shell is queued, then `init` adds the idle process. */
    constructor (shell: Context, idle: Context)
      ensures Valid() && fresh(input) && fresh(output) && fresh(input.inner) && fresh(output.inner)
      ensures BootKernel(Some(shell), idle) == Some(Value())
    {
      input := new SizedQueue(SHELL_QUEUE_SIZE);
      output := new SizedQueue(SHELL_QUEUE_SIZE);
      current, queue, blocked, nextId := None, map[], [], IDLE_PROCESS_ID + 1;
      new;
      StartUser(All, shell);
      Enqueue(Process(IDLE_PROCESS_ID, Idle, All, Some(idle), INIT_FPU));
    }

    method StartUser(policy: AccessPolicy, entry: Context)
      requires Valid()
      modifies this`queue, this`nextId
      ensures RunUserProcess(old(Value()), policy, Some(entry)) == Some(Value())
    {
      var id := nextId;
      nextId := nextId + 1;
      Enqueue(Process(id, Normal, policy, Some(entry), INIT_FPU));
    }

    method Enqueue(process: Process)
      requires Valid()
      modifies this`queue
      ensures Value() == AddToQueue(old(Value()), process)
    {
      var waiting := if process.priority in queue then queue[process.priority] else [];
      queue := queue[process.priority := waiting + [process]];
    }

    /** The running process is stored with its registers; one that is stored already is an error. */
    method StoreContext(cpu: Context, fpu: nat)
      requires Valid() && current.Some? && current.value.context.None?
      modifies this`current
      ensures SetCurrentContext(old(Value()), cpu, fpu) == Some(Value())
    {
      var process := current.value;
      current := Some(Process(process.id, process.priority, process.policy, Some(cpu), fpu));
    }

    method Preempt()
      requires Valid() && current.Some?
      modifies this`current, this`queue
      ensures PreemptCurrent(old(Value())) == Some(Value())
    {
      var process := current.value;
      current := None;
      Enqueue(process);
    }

    method Block(addr: nat)
      requires Valid() && current.Some?
      modifies this`current, this`blocked, input, input.inner
      ensures Valid() && BlockCurrent(old(Value()), addr) == Some(Value())
    {
      var process := current.value;
      current := None;
      blocked := blocked + [process];
      input.Push(AccessModule(addr, process.id));
    }

    method Exit()
      requires Valid() && current.Some? && current.value.context.Some?
      modifies this`current
      ensures ExitCurrent(old(Value())) == Some(Value())
    {
      current := None;
    }

    method Translate(result: nat)
      requires Valid() && current.Some? && current.value.context.Some?
      modifies this`current
      ensures TranslateCurrent(old(Value()), result) == Some(Value())
    {
      var process := current.value;
      current := Some(Process(process.id, process.priority, process.policy,
                              Some(Context(result, process.context.value.others)), process.fpu));
    }

    /** The body of an interrupt handler. */
    method Serve(event: Event)
      requires Valid() && current.Some? && current.value.context.Some?
      modifies this`current, this`queue, this`blocked, input, input.inner
      ensures Valid() && Body(old(Value()), event) == Some(Value())
    {
      match event
      case Timer => Preempt();
      case Translate(result) => Translate(result);
      case Exit => Exit();
      case Resume =>
      case Block(addr) => Block(addr);
    }

    /** Handle one message from the shell; `ok` is false where the kernel would panic. */
    method HandleShell(granted: bool, entry: Option<Context>) returns (ok: bool)
      requires Valid()
      modifies this`queue, this`blocked, this`nextId, output, output.inner
      ensures Valid() && ok == PollShell(old(Value()), granted, entry).Some?
      ensures ok ==> PollShell(old(Value()), granted, entry) == Some(Value())
    {
      ok := true;
      var message := output.Pop();
      if message.Some? {
        match message.value {
          case ExitProcess(_) =>
            if blocked == [] {
              return false;
            }
            blocked := blocked[1..];
          case StartProcess(_) =>
            if entry.None? {
              return false;
            }
            StartUser(Ask, entry.value);
          case AllowModuleAccess(_, id) =>
            if blocked == [] || blocked[0].id != id {
              return false;
            }
            var process := blocked[0];
            blocked := blocked[1..];
            if granted {
              Enqueue(process);
            }
        }
      }
    }

    /** Search the run queues in order of priority. */
    method Find() returns (p: Option<Priority>)
      requires Valid()
      ensures p == FirstQueue(Value())
    {
      var order := [NoPriority, Normal, Idle];
      for i := 0 to |order|
        invariant forall j :: 0 <= j < i ==> Waiting(Value(), order[j]) == []
      {
        if order[i] in queue && queue[order[i]] != [] {
          assert i > 0 ==> Waiting(Value(), order[0]) == [];
          assert i > 1 ==> Waiting(Value(), order[1]) == [];
          return Some(order[i]);
        }
      }
      assert Waiting(Value(), order[0]) == [] && Waiting(Value(), order[1]) == [] && Waiting(Value(), order[2]) == [];
      return None;
    }

    /** Choose a process if none is current and hand over its registers. */
    method Resume(fpu: nat) returns (r: Option<(Context, nat)>)
      requires Valid()
      modifies this`current, this`queue
      ensures Valid() && r.Some? == Dispatch(old(Value()), fpu).Some?
      ensures r.Some? ==> Dispatch(old(Value()), fpu) == Some((Value(), r.value.0, r.value.1))
    {
      var live := fpu;
      if current.None? {
        var p := Find();
        if p.None? {
          return None;
        }
        var waiting := queue[p.value];
        queue := queue[p.value := waiting[1..]];
        current := Some(waiting[0]);
        live := waiting[0].fpu;
      }
      var process := current.value;
      if process.context.None? {
        return None;
      }
      current := Some(Process(process.id, process.priority, process.policy, None, process.fpu));
      return Some((process.context.value, live));
    }

    /** Save the running process and do the interrupt's own work; `ok` is false where the kernel panics. */
    method Enter(event: Event, cpu: Context, fpu: nat, ghost held: Option<Request>) returns (ok: bool)
      requires Valid()
      modifies this`current, this`queue, this`blocked, input, input.inner
      ensures Valid() && Interrupted(Machine(old(Value()), cpu, fpu, held), event) == if ok then Some(Value()) else None
    {
      if current.None? || current.value.context.Some? {
        return false;
      }
      StoreContext(cpu, fpu);
      Serve(event);
      return true;
    }

    /** Handle a message and dispatch a process. */
    method ScheduleNext(fpu: nat, granted: bool, entry: Option<Context>) returns (r: Option<(Context, nat)>)
      requires Valid()
      modifies this`current, this`queue, this`blocked, this`nextId, output, output.inner
      ensures Valid()
      ensures
        var polled := PollShell(old(Value()), granted, entry);
        if polled.None? then r.None?
        else Dispatch(polled.value, fpu) == if r.Some? then Some((Value(), r.value.0, r.value.1)) else None
    {
      var ok := HandleShell(granted, entry);
      if !ok {
        return None;
      }
      r := Resume(fpu);
    }

    /** A whole interrupt, from saving the running process to resuming one, with no result where the kernel panics. */
    method Interrupt(event: Event, cpu: Context, fpu: nat, granted: bool, entry: Option<Context>, ghost held: Option<Request>)
      returns (r: Option<(Context, nat)>)
      requires Valid()
      modifies this, input, input.inner, output, output.inner
      ensures Valid()
      ensures Step(Machine(old(Value()), cpu, fpu, held), Op.Interrupt(event, granted, entry)) ==
              if r.Some? then Some(Machine(Value(), r.value.0, r.value.1, held)) else None
    {
      var ok := Enter(event, cpu, fpu, held);
      if !ok {
        return None;
      }
      r := ScheduleNext(fpu, granted, entry);
    }

    /** In a state of the protocol, with room in the ring it writes to and only possible starts, an interrupt never panics and keeps the protocol. */
    method InterruptSafely(event: Event, cpu: Context, fpu: nat, granted: bool, entry: Option<Context>, ghost held: Option<Request>)
      returns (context: Context, live: nat)
      requires Valid() && Inv(Machine(Value(), cpu, fpu, held))
      requires Enabled(Machine(Value(), cpu, fpu, held), Op.Interrupt(event, granted, entry))
      modifies this, input, input.inner, output, output.inner
      ensures Valid() && Inv(Machine(Value(), context, live, held))
      ensures Step(Machine(old(Value()), cpu, fpu, held), Op.Interrupt(event, granted, entry)) == Some(Machine(Value(), context, live, held))
    {
      StepSafe(Machine(Value(), cpu, fpu, held), Op.Interrupt(event, granted, entry));
      var r := Interrupt(event, cpu, fpu, granted, entry, held);
      context, live := r.value.0, r.value.1;
    }
  }
}
