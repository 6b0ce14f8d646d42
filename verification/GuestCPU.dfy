/**
 The interpreter loop and its decode cache (runtime/GuestCPU.c:145-178), against
 a machine that fetches and decodes at every step.
 */
module GuestCPU {
  import opened GuestTypes
  import opened Octets
  import opened GuestPages
  import opened GuestAccess
  import opened GuestMemory
  import opened GuestCode

  const CACHE_SIZE: nat := 4096

  // ----- the machine without a cache -----

  datatype Machine = Machine(mem: Mem, registers: Registers, retired: nat, jit: bool)

  datatype Stop = Budget | Returned | Unsupported(instruction: nat) | Fault(status: Status, address: nat)

  ghost predicate GoodMachine(m: Machine) {
    Good(m.mem.pages) && GoodRegisters(m.registers)
  }

  function FetchFault(pages: seq<Page>, t: Thread, pc: nat): (Status, nat) {
    if pc % 4 != 0 then (Invalid, pc) else Access(pages, t, pc, 4, EXEC)
  }

  function Effective(c: Registers, d: Decoded): u64
    requires GoodRegisters(c)
  {
    Wrap64(Reg(c, d.rn, true) + d.immediate)
  }

  function Next(m: Machine, registers: Registers): Machine {
    m.(registers := registers, retired := m.retired + 1)
  }

  /** A decoded instruction carried out; `room` pages can still be given storage. */
  function Carry(m: Machine, d: Decoded, room: nat): (Machine, Option<Stop>)
    requires GoodMachine(m)
  {
    var c := m.registers;
    var forward := Wrap64(c.pc + 4);
    if d.op == STORE then
      var bytes := Spread(Reg(c, d.rd, false), d.amount);
      var (mem, v, f) := AfterWrite(m.mem, Some(m.jit), Effective(c, d), bytes, WRITE, room);
      if v != Status.Ok then (m.(mem := mem), Some(Fault(v, f))) else (Next(m.(mem := mem), c.(pc := forward)), None)
    else if d.op == LOAD then
      var (v, f) := Access(m.mem.pages, None, Effective(c, d), d.amount, READ);
      if v != Status.Ok then (m, Some(Fault(v, f)))
      else
        var value := Wrap64(Little(Bytes(m.mem.pages, Effective(c, d), d.amount)));
        (Next(m, Put(c, d.rd, value, d.width, false).(pc := forward)), None)
    else
      var r := Execute(c, d);
      if r.None? then (m, Some(Unsupported(d.instruction))) else (Next(m, r.value), None)
  }

  /** Fetch, decode, carry out. */
  function PlainStep(m: Machine, room: nat): (Machine, Option<Stop>)
    requires GoodMachine(m)
  {
    var word := FetchWord(m.mem.pages, Some(m.jit), m.registers.pc);
    if word.None? then
      var (v, f) := FetchFault(m.mem.pages, Some(m.jit), m.registers.pc);
      (m, Some(Fault(v, f)))
    else Carry(m, Decode(m.registers.pc, word.value), room)
  }

  lemma CarryGood(m: Machine, d: Decoded, room: nat)
    requires GoodMachine(m)
    ensures GoodMachine(Carry(m, d, room).0) && Advances(m.mem, Carry(m, d, room).0.mem)
    ensures Carry(m, d, room).0.jit == m.jit
  {
    hide Good, AfterWrite, Access, Execute, FetchWord, Reg, Spread, Little, Bytes;
    AdvancesSelf(m.mem);
    WriteAdvances(m.mem, Some(m.jit), Effective(m.registers, d), Spread(Reg(m.registers, d.rd, false), d.amount),
                  WRITE, room);
  }

  lemma AdvancesSelf(m: Mem)
    requires Good(m.pages)
    ensures Advances(m, m)
  {
  }

  lemma StepGood(m: Machine, room: nat)
    requires GoodMachine(m)
    ensures GoodMachine(PlainStep(m, room).0)
  {
    hide Good, Carry, FetchWord, Decode, FetchFault;
    var word := FetchWord(m.mem.pages, Some(m.jit), m.registers.pc);
    if word.Some? { CarryGood(m, Decode(m.registers.pc, word.value), room); }
  }

  /** A whole run; `rooms(k)` pages can be given storage in step `k`. */
  function PlainRun(m: Machine, budget: nat, target: u64, rooms: nat -> nat, step: nat): (Machine, Stop)
    requires GoodMachine(m)
    decreases budget - step
  {
    if m.registers.pc == target then (m, Returned)
    else if step >= budget then (m, Budget)
    else
      StepGood(m, rooms(step));
      var (n, stop) := PlainStep(m, rooms(step));
      if stop.Some? then (n, stop.value) else PlainRun(n, budget, target, rooms, step + 1)
  }

  // ----- the cache -----

  /** A valid entry is what fetching and decoding its address would give. */
  ghost predicate Agrees(d: Decoded, pages: seq<Page>, jit: bool)
    requires Good(pages)
  {
    d.valid ==>
      var word := FetchWord(pages, Some(jit), d.pc);
      word.Some? && d == Decode(d.pc, word.value)
  }

  /** Unless the code changed since the cache was cleared, every entry agrees with memory. */
  ghost predicate Coherent(cache: seq<Decoded>, generation: nat, jit: bool, m: Mem)
    requires Good(m.pages)
  {
    generation <= m.codeGeneration
    && (generation == m.codeGeneration ==> forall k :: 0 <= k < |cache| ==> Agrees(cache[k], m.pages, jit))
  }

  /** Whatever memory does, it keeps every cache coherent. */
  lemma CoherentKept(cache: seq<Decoded>, generation: nat, jit: bool, m: Mem, r: Mem)
    requires Advances(m, r) && Coherent(cache, generation, jit, m)
    ensures Coherent(cache, generation, jit, r)
  {
    hide Good, FetchWord, Decode;
    if generation == r.codeGeneration {
      forall k | 0 <= k < |cache| ensures Agrees(cache[k], r.pages, jit) {
        assert Agrees(cache[k], m.pages, jit);
        assert FetchWord(r.pages, Some(jit), cache[k].pc) == FetchWord(m.pages, Some(jit), cache[k].pc);
      }
    }
  }

  lemma CoherentUpdate(cache: seq<Decoded>, generation: nat, jit: bool, m: Mem, k: nat, d: Decoded)
    requires Good(m.pages) && Coherent(cache, generation, jit, m) && k < |cache| && Agrees(d, m.pages, jit)
    ensures Coherent(cache[k := d], generation, jit, m)
  {
    hide Good, Agrees;
  }

  // ----- the interpreter -----

  datatype Result = BUDGET | RETURNED | UNSUPPORTED | MEMORY

  function ResultOf(s: Stop): Result {
    match s
    case Budget => BUDGET
    case Returned => RETURNED
    case Unsupported(_) => UNSUPPORTED
    case Fault(_, _) => MEMORY
  }

  class CPU {
    var registers: Registers
    var retired: nat
    var jit: bool
    var memoryResult: Status
    var faultInstruction: nat
    var cacheGeneration: nat
    var cacheWriteProtected: bool
    const cache: array<Decoded>

    ghost predicate Valid(m: Mem)
      reads this, cache
    {
      cache.Length == CACHE_SIZE && GoodRegisters(registers) && Good(m.pages)
      && Coherent(cache[..], cacheGeneration, cacheWriteProtected, m)
    }

    ghost function Plain(m: Mem): Machine
      reads this
    {
      Machine(m, registers, retired, jit)
    }

    constructor (entry: u64, stack: u64)
      ensures fresh(cache)
      ensures forall m: Mem :: Good(m.pages) ==> Valid(m) && Plain(m) == Started(m, entry, stack)
    {
      cache := new Decoded[CACHE_SIZE](_ => NOTHING);
      registers := Registers(seq(31, _ => 0), stack, entry, 0);
      retired, jit, memoryResult, faultInstruction := 0, true, Status.Ok, 0;
      cacheGeneration, cacheWriteProtected := 0, false;
    }

    /** The entry for the current address, fetched and decoded unless it is cached. */
    method Lookup(memory: Memory) returns (r: Status, d: Decoded)
      requires memory.Valid() && Valid(memory.M())
      modifies this`memoryResult, this`cacheGeneration, this`cacheWriteProtected, cache, memory`fault
      ensures Valid(memory.M())
      ensures var word := FetchWord(memory.pages, Some(jit), registers.pc);
        if word.Some? then r == Status.Ok && d == Decode(registers.pc, word.value)
        else && r != Status.Ok && (r, memory.fault) == FetchFault(memory.pages, Some(jit), registers.pc)
             && memoryResult == r
    {
      hide Good, FetchWord, Decode, Access;
      if cacheGeneration != memory.codeGeneration || cacheWriteProtected != jit {
        Clear();
        cacheGeneration, cacheWriteProtected := memory.codeGeneration, jit;
      }
      var slot := registers.pc / 4 % CACHE_SIZE;
      d := cache[slot];
      assert Agrees(d, memory.pages, jit);
      r := Status.Ok;
      if !d.valid || d.pc != registers.pc {
        var word;
        r, word := memory.Fetch(Some(jit), registers.pc);
        memoryResult := r;
        if r != Status.Ok { return; }
        d := DecodeWord(registers.pc, word);
        DecodeMeans(registers.pc, word);
        CoherentUpdate(cache[..], cacheGeneration, jit, memory.M(), slot, d);
        ghost var was := cache[..];
        cache[slot] := d;
        assert cache[..] == was[slot := d];
      }
    }

    /** Starts over at `entry`. */
    method Reset(entry: u64, stack: u64)
      requires cache.Length == CACHE_SIZE
      modifies this, cache
      ensures forall m: Mem :: Good(m.pages) ==> Valid(m) && Plain(m) == Started(m, entry, stack)
    {
      Clear();
      registers := Registers(seq(31, _ => 0), stack, entry, 0);
      retired, jit, memoryResult, faultInstruction := 0, true, Status.Ok, 0;
      cacheGeneration, cacheWriteProtected := 0, false;
    }

    method Clear()
      modifies cache
      ensures forall k :: 0 <= k < cache.Length ==> cache[k] == NOTHING
    {
      forall k | 0 <= k < cache.Length { cache[k] := NOTHING; }
    }

    /** Loads and stores. */
    method Transfer(memory: Memory, d: Decoded, room: nat) returns (ok: bool)
      requires memory.Valid() && Valid(memory.M()) && (d.op == LOAD || d.op == STORE)
      modifies this`registers, this`memoryResult, this`retired, memory
      ensures memory.Valid() && GoodRegisters(registers)
      ensures Plain(memory.M()) == Carry(old(Plain(memory.M())), d, room).0
      ensures var stop := Carry(old(Plain(memory.M())), d, room).1;
        if ok then stop.None? else stop == Some(Fault(memoryResult, memory.fault))
    {
      hide Good, AfterWrite, Access, Bytes, Little, Spread;
      var a := Effective(registers, d);
      var value := 0;
      if d.op == STORE {
        memoryResult := memory.CopyIn(Some(jit), a, Spread(Reg(registers, d.rd, false), d.amount), WRITE, room);
      } else {
        var bytes;
        memoryResult, bytes := memory.CopyOut(None, a, d.amount, READ);
        value := Wrap64(Little(bytes));
      }
      if memoryResult != Status.Ok { return false; }
      if d.op == LOAD { registers := Put(registers, d.rd, value, d.width, false); }
      registers := registers.(pc := Wrap64(registers.pc + 4));
      retired := retired + 1;
      return true;
    }

    /** One instruction, wherever its decoding came from. */
    method Step(memory: Memory, d: Decoded, room: nat) returns (r: Option<Result>)
      requires memory.Valid() && Valid(memory.M()) && d.valid
      modifies this`registers, this`memoryResult, this`faultInstruction, this`retired, memory
      ensures memory.Valid() && Valid(memory.M())
      ensures Plain(memory.M()) == Carry(old(Plain(memory.M())), d, room).0
      ensures Reported(r, Carry(old(Plain(memory.M())), d, room).1, memory)
    {
      hide Good, AfterWrite, Access, Bytes, Little, Spread, Execute, Put, Effective, Reg;
      ghost var before := Plain(memory.M());
      CarryGood(before, d, room);
      CoherentKept(cache[..], cacheGeneration, cacheWriteProtected, before.mem, Carry(before, d, room).0.mem);
      if d.op == LOAD || d.op == STORE {
        var ok := Transfer(memory, d, room);
        return if ok then None else Some(MEMORY);
      }
      var next := Execute(registers, d);
      if next.None? {
        faultInstruction := d.instruction;
        return Some(UNSUPPORTED);
      }
      registers, retired := next.value, retired + 1;
      return None;
    }

    /** What the fields show of the reason to stop. */
    predicate Reported(r: Option<Result>, stop: Option<Stop>, memory: Memory)
      reads this, memory
    {
      if stop.None? then r.None?
      else
        r == Some(ResultOf(stop.value))
        && match stop.value
           case Unsupported(i) => faultInstruction == i
           case Fault(v, f) => memoryResult == v && memory.fault == f
           case _ => true
    }

    /** The interpreter loop does exactly what fetching and decoding at every step would. */
    method Run(memory: Memory, budget: nat, target: u64, rooms: nat -> nat) returns (r: Result)
      requires memory.Valid() && Valid(memory.M())
      modifies this, cache, memory
      ensures memory.Valid() && Valid(memory.M())
      ensures Plain(memory.M()) == PlainRun(old(Plain(memory.M())), budget, target, rooms, 0).0
      ensures Reported(Some(r), Some(PlainRun(old(Plain(memory.M())), budget, target, rooms, 0).1), memory)
    {
      hide Good, FetchWord, Decode, FetchFault, Carry;
      ghost var start := Plain(memory.M());
      var step := 0;
      while step < budget
        invariant step <= budget && memory.Valid() && Valid(memory.M()) && GoodMachine(start)
        invariant PlainRun(Plain(memory.M()), budget, target, rooms, step) == PlainRun(start, budget, target, rooms, 0)
      {
        if registers.pc == target { return RETURNED; }
        StepGood(Plain(memory.M()), rooms(step));
        var found, d := Lookup(memory);
        if found != Status.Ok { return MEMORY; }
        DecodedValid(memory.pages, Some(jit), registers.pc, d);
        var stopped := Step(memory, d, rooms(step));
        if stopped.Some? { return stopped.value; }
        step := step + 1;
      }
      return if registers.pc == target then RETURNED else BUDGET;
    }
  }

  lemma DecodedValid(pages: seq<Page>, t: Thread, pc: u64, d: Decoded)
    requires Good(pages) && FetchWord(pages, t, pc).Some? && d == Decode(pc, FetchWord(pages, t, pc).value)
    ensures d.valid
  {
    DecodeMeans(pc, FetchWord(pages, t, pc).value);
  }

  function Started(m: Mem, entry: u64, stack: u64): Machine {
    Machine(m, Registers(seq(31, _ => 0), stack, entry, 0), 0, true)
  }
}
