/**
 Whole runs of the interpreter with memory calls in between: mapping, protection,
 loading, writes and JIT write-protection switches (runtime/GuestCPU.c,
 runtime/GuestMemory.c).
 */
module GuestRuns {
  import opened GuestTypes
  import opened Octets
  import opened GuestPages
  import opened GuestAccess
  import opened GuestMemory
  import opened GuestCode
  import opened GuestCPU

  datatype Action =
    | Map(a: nat, n: nat, prot: Prot, maxprot: Prot, jit: bool, replace: bool, allocates: bool)
    | Unmap(a: nat, n: nat)
    | Protect(a: nat, n: nat, prot: Prot)
    | Write(a: nat, bytes: seq<octet>, room: nat)
    | Populate(a: nat, bytes: seq<octet>, room: nat)
    | SetJit(on: bool)
    | Reset(entry: u64, stack: u64)
    | Go(budget: nat, target: u64, rooms: nat -> nat)

  datatype Answer = Did(status: Status) | Stopped(stop: Stop)

  /** What an action does to a machine that has no cache. */
  ghost function PlainAct(m: Machine, action: Action): (Machine, Answer)
    requires GoodMachine(m)
  {
    match action
    case Map(a, n, prot, maxprot, jit, replace, allocates) =>
      (m.(mem := AfterMap(m.mem, a, n, prot, maxprot, jit, replace, allocates)),
       Did(MapResult(m.mem, a, n, prot, maxprot, replace, allocates)))
    case Unmap(a, n) => (m.(mem := AfterUnmap(m.mem, a, n)), Did(if Aligned(a, n) then Status.Ok else Invalid))
    case Protect(a, n, prot) => (m.(mem := AfterProtect(m.mem, a, n, prot)), Did(ProtectResult(m.mem, a, n, prot)))
    case Write(a, bytes, room) =>
      var (mem, v, _) := AfterWrite(m.mem, Some(m.jit), a, bytes, WRITE, room);
      (m.(mem := mem), Did(v))
    case Populate(a, bytes, room) =>
      var (mem, v, _) := AfterWrite(m.mem, None, a, bytes, 0, room);
      (m.(mem := mem), Did(v))
    case SetJit(on) => (m.(jit := on), Did(Status.Ok))
    case Reset(entry, stack) => (Started(m.mem, entry, stack), Did(Status.Ok))
    case Go(budget, target, rooms) =>
      var (n, stop) := PlainRun(m, budget, target, rooms, 0);
      (n, Stopped(stop))
  }

  lemma AdvancesOn(a: Mem, b: Mem, c: Mem)
    requires Advances(a, b) && Advances(b, c)
    ensures Advances(a, c)
  {
    hide Good, FetchWord;
    if a.codeGeneration == c.codeGeneration {
      forall t, pc: nat ensures FetchWord(c.pages, t, pc) == FetchWord(a.pages, t, pc) {
        assert FetchWord(b.pages, t, pc) == FetchWord(a.pages, t, pc);
      }
    }
  }

  /** A run moves memory on as its stores do. */
  lemma {:induction false} RunGood(m: Machine, budget: nat, target: u64, rooms: nat -> nat, step: nat)
    requires GoodMachine(m)
    ensures var n := PlainRun(m, budget, target, rooms, step).0; GoodMachine(n) && Advances(m.mem, n.mem)
    decreases budget - step
  {
    hide Good, FetchWord, Carry, Decode, FetchFault, Advances;
    AdvancesSelf(m.mem);
    if m.registers.pc != target && step < budget {
      StepGood(m, rooms(step));
      var word := FetchWord(m.mem.pages, Some(m.jit), m.registers.pc);
      if word.Some? { CarryGood(m, Decode(m.registers.pc, word.value), rooms(step)); }
      var (n, stop) := PlainStep(m, rooms(step));
      if stop.None? {
        RunGood(n, budget, target, rooms, step + 1);
        AdvancesOn(m.mem, n.mem, PlainRun(n, budget, target, rooms, step + 1).0.mem);
      }
    }
  }

  /** Every action moves memory on, so no cache of any processor becomes incoherent. */
  lemma ActGood(m: Machine, action: Action)
    requires GoodMachine(m)
    ensures GoodMachine(PlainAct(m, action).0) && Advances(m.mem, PlainAct(m, action).0.mem)
  {
    hide Good, FetchWord, Advances, AfterMap, AfterUnmap, AfterProtect, AfterWrite, PlainRun;
    AdvancesSelf(m.mem);
    match action
    case Map(a, n, prot, maxprot, jit, replace, allocates) =>
      MapAdvances(m.mem, a, n, prot, maxprot, jit, replace, allocates);
      AdvancesGood(m.mem, PlainAct(m, action).0.mem);
    case Unmap(a, n) =>
      UnmapAdvances(m.mem, a, n);
      AdvancesGood(m.mem, PlainAct(m, action).0.mem);
    case Protect(a, n, prot) =>
      ProtectAdvances(m.mem, a, n, prot);
      AdvancesGood(m.mem, PlainAct(m, action).0.mem);
    case Write(a, bytes, room) =>
      WriteAdvances(m.mem, Some(m.jit), a, bytes, WRITE, room);
      AdvancesGood(m.mem, PlainAct(m, action).0.mem);
    case Populate(a, bytes, room) =>
      WriteAdvances(m.mem, None, a, bytes, 0, room);
      AdvancesGood(m.mem, PlainAct(m, action).0.mem);
    case Go(budget, target, rooms) => RunGood(m, budget, target, rooms, 0);
    case _ =>
  }

  lemma AdvancesGood(m: Mem, r: Mem)
    requires Advances(m, r)
    ensures Good(r.pages)
  {
  }

  /** The processor with its cache answers as the machine without one. */
  method Act(cpu: CPU, memory: Memory, action: Action) returns (answer: Answer)
    requires memory.Valid() && cpu.Valid(memory.M())
    modifies cpu, cpu.cache, memory
    ensures memory.Valid() && cpu.Valid(memory.M())
    ensures (cpu.Plain(memory.M()), answer) == PlainAct(old(cpu.Plain(memory.M())), action)
    ensures Advances(old(memory.M()), memory.M())
  {
    hide Good, FetchWord, AfterMap, AfterUnmap, AfterProtect, AfterWrite, PlainRun, Advances, Coherent;
    ghost var before := cpu.Plain(memory.M());
    ghost var after := PlainAct(before, action).0.mem;
    ActGood(before, action);
    CoherentKept(cpu.cache[..], cpu.cacheGeneration, cpu.cacheWriteProtected, before.mem, after);
    var status := Status.Ok;
    match action {
      case Map(a, n, prot, maxprot, jit, replace, allocates) =>
        status := memory.Map(a, n, prot, maxprot, jit, replace, allocates);
      case Unmap(a, n) => status := memory.Unmap(a, n);
      case Protect(a, n, prot) => status := memory.Protect(a, n, prot);
      case Write(a, bytes, room) => status := memory.CopyIn(Some(cpu.jit), a, bytes, WRITE, room);
      case Populate(a, bytes, room) => status := memory.CopyIn(None, a, bytes, 0, room);
      case SetJit(on) => cpu.jit := on;
      case Reset(entry, stack) => cpu.Reset(entry, stack);
      case Go(budget, target, rooms) =>
        var r := cpu.Run(memory, budget, target, rooms);
        return Stopped(
          match r
          case BUDGET => Budget
          case RETURNED => Returned
          case UNSUPPORTED => Unsupported(cpu.faultInstruction)
          case MEMORY => Fault(cpu.memoryResult, memory.fault));
    }
    answer := Did(status);
  }

  /** The machine after all actions, and the answers on the way. */
  ghost function PlainAll(m: Machine, actions: seq<Action>): (Machine, seq<Answer>)
    requires GoodMachine(m)
    ensures GoodMachine(PlainAll(m, actions).0)
  {
    if actions == [] then (m, [])
    else
      var (n, answers) := PlainAll(m, actions[..|actions| - 1]);
      ActGood(n, actions[|actions| - 1]);
      var (last, answer) := PlainAct(n, actions[|actions| - 1]);
      (last, answers + [answer])
  }

  /** Over any sequence of actions the cache is never noticed. */
  method ActAll(cpu: CPU, memory: Memory, actions: seq<Action>) returns (answers: seq<Answer>)
    requires memory.Valid() && cpu.Valid(memory.M())
    modifies cpu, cpu.cache, memory
    ensures memory.Valid() && cpu.Valid(memory.M())
    ensures (cpu.Plain(memory.M()), answers) == PlainAll(old(cpu.Plain(memory.M())), actions)
  {
    hide Good, PlainAct, Coherent;
    ghost var start := cpu.Plain(memory.M());
    answers := [];
    for k := 0 to |actions|
      invariant memory.Valid() && cpu.Valid(memory.M()) && GoodMachine(start)
      invariant (cpu.Plain(memory.M()), answers) == PlainAll(start, actions[..k])
    {
      assert actions[..k + 1][..k] == actions[..k];
      var answer := Act(cpu, memory, actions[k]);
      answers := answers + [answer];
    }
    assert actions[..|actions|] == actions;
  }
}
