/** The execution unit as the object the emulator updates in place: the
    CpuContext of src/cpu/cpu_context.rs (and the CLU of src/cpu/clu.rs and
    src/cpu/clu/clu.rs, chosen by `rev`), holding the register file, the
    memory map and the clock. Every method is proved to compute the
    function of module Semantics that describes it, so the properties
    proved of those functions hold of this code. */
module Cpu {
  import opened Errors
  import opened Alu
  import opened Registers
  import opened Memory
  import opened Cycles
  import opened Operands
  import opened Semantics
  import opened HandlerFacts

  class Cpu {
    const rev: Revision
    var regs: RegFile
    const memory: MemoryMap
    const clock: Clock

    ghost predicate Valid()
      reads this, memory
    {
      memory.Valid()
    }

    /** The unit as a machine value. */
    function State(): Machine
      reads this, memory, memory.oam, memory.io, memory.hram, clock
    {
      Machine(regs, memory.Value(), clock.Value())
    }

    /** CpuContext::init / CLU::init. */
    constructor (rev: Revision, regs: RegFile, memory: MemoryMap, clock: Clock)
      requires memory.Valid()
      ensures Valid() && this.rev == rev && this.memory == memory && this.clock == clock
      ensures State() == Machine(regs, memory.Value(), clock.Value())
    {
      this.rev := rev;
      this.regs := regs;
      this.memory := memory;
      this.clock := clock;
    }

    // -------------------------------------------------------------------
    // Memory access

    /** `memory.read(&mut clock, addr)` of the latest revision: one tick,
        then the read. */
    method TimedRead(addr: u16) returns (r: Result<u8>)
      requires Valid()
      modifies clock
      ensures Valid()
      ensures Effect(r, State()) == ReadMem(Ticked(old(State()), 1), addr)
    {
      clock.Tick();
      r := memory.Read(addr);
    }

    /** `memory.write(&mut clock, addr, value)` of the latest revision: one
        tick, then the write. */
    method TimedWrite(addr: u16, value: u8) returns (r: Result<()>)
      requires Valid()
      modifies memory, memory.oam, memory.io, memory.hram, clock
      ensures Valid()
      ensures Effect(r, State()) == WriteMem(Ticked(old(State()), 1), addr, value)
    {
      clock.Tick();
      r := memory.Write(addr, value);
    }

    /** `*match_r8(reg)? = value`. */
    method Assign(reg: nat, value: u8) returns (r: Result<()>)
      modifies this
      ensures Effect(r, State()) == Semantics.Assign(old(State()), reg, value)
    {
      match regs.SetR8(reg, value)
      case Ok(regs') =>
        regs := regs';
        r := Ok(());
      case Err(e) =>
        r := Err(e);
    }

    // -------------------------------------------------------------------
    // Fetch

    /** fetch: the byte at PC, 0 when the read fails, then PC + 1 and one
        tick (the latest revision ticks inside its timed read). */
    method Fetch() returns (op: u8)
      requires Valid() && regs.pc < 0xFFFF
      modifies this, clock
      ensures Valid()
      ensures Effect(Ok(op), State()) == Semantics.Fetch(old(State()))
    {
      var read: Result<u8>;
      if rev == Latest {
        read := TimedRead(regs.pc);
      } else {
        read := memory.Read(regs.pc);
      }
      op := match read case Ok(b) => b case Err(_) => 0;
      regs := regs.(pc := regs.pc + 1);
      if rev != Latest {
        clock.Tick();
      }
    }

    // -------------------------------------------------------------------
    // Operands of the latest revision (src/cpu/cpu_context.rs)

    /** R8::get_r8_param. */
    method GetR8Param(n8: bool, opcode: u8, index: nat) returns (p: R8)
      requires Valid() && index <= 5 && (n8 ==> regs.pc < 0xFFFF)
      modifies this, clock
      ensures Valid()
      ensures Effect(Ok(p), State()) == Semantics.GetR8Param(old(State()), n8, opcode, index)
    {
      if n8 {
        var n := Fetch();
        return N8(n);
      }
      var param := ReadBits(opcode, index, 3);
      if param == 6 {
        p := Hl(ReadU16(regs.l, regs.h));
      } else {
        p := Register(param);
      }
    }

    /** R8::read. */
    method R8Read(p: R8) returns (r: Result<u8>)
      requires Valid()
      modifies clock
      ensures Valid()
      ensures Effect(r, State()) == Semantics.R8Read(old(State()), p)
    {
      match p
      case Register(reg) =>
        r := regs.MatchR8(reg);
      case Hl(addr) =>
        r := TimedRead(addr);
      case N8(n) =>
        r := Ok(n);
    }

    /** R8::write. */
    method R8Write(p: R8, value: u8) returns (r: Result<()>)
      requires Valid()
      modifies this, memory, memory.oam, memory.io, memory.hram, clock
      ensures Valid()
      ensures Effect(r, State()) == Semantics.R8Write(old(State()), p, value)
    {
      match p
      case Register(reg) =>
        r := Assign(reg, value);
      case Hl(addr) =>
        r := TimedWrite(addr, value);
      case N8(_) =>
        r := Ok(());
    }

    // -------------------------------------------------------------------
    // Operands of the intermediate revision (src/cpu/clu/clu.rs)

    /** R8::get_r8_param with values: the [HL] operand ticks, then reads
        untimed. */
    method GetLoadedParam(n8: bool, opcode: u8, index: nat) returns (r: Result<LoadedR8>)
      requires Valid() && index <= 5 && (n8 ==> regs.pc < 0xFFFF)
      modifies this, clock
      ensures Valid()
      ensures Effect(r, State()) == Semantics.GetLoadedParam(old(State()), n8, opcode, index)
    {
      if n8 {
        var n := Fetch();
        return Ok(LoadedN8(n));
      }
      var param := ReadBits(opcode, index, 3);
      if param == 6 {
        var addr := ReadU16(regs.l, regs.h);
        clock.Tick();
        var read := memory.Read(addr);
        r := match read case Ok(value) => Ok(LoadedHl(addr, value)) case Err(e) => Err(e);
      } else {
        var read := regs.MatchR8(param);
        r := match read case Ok(value) => Ok(LoadedRegister(param, value)) case Err(e) => Err(e);
      }
    }

    // -------------------------------------------------------------------
    // LD r8/[hl], r8/[hl]

    /** load_from of src/cpu/clu.rs. */
    method LoadFromEarliest(opcode: u8) returns (r: Result<()>)
      requires Valid()
      modifies this, memory, memory.oam, memory.io, memory.hram, clock
      ensures Valid()
      ensures Effect(r, State()) == Semantics.LoadFromEarliest(old(State()), opcode)
    {
      var src := ReadBits(opcode, 0, 3);
      var read: Result<u8>;
      if src == 6 {
        clock.Tick();
        read := memory.Read(ReadU16(regs.l, regs.h));
      } else {
        read := regs.MatchR8(src);
      }
      if read.Err? {
        return Err(read.error);
      }
      var dst := ReadBits(opcode, 3, 3);
      if dst == 6 {
        clock.Tick();
        r := memory.Write(ReadU16(regs.l, regs.h), read.value);
      } else {
        r := Assign(dst, read.value);
      }
    }

    /** load_from of src/cpu/clu/clu.rs. */
    method LoadFromIntermediate(opcode: u8) returns (r: Result<()>)
      requires Valid()
      modifies this, memory, memory.oam, memory.io, memory.hram, clock
      ensures Valid()
      ensures Effect(r, State()) == Semantics.LoadFromIntermediate(old(State()), opcode)
    {
      var src := GetLoadedParam(false, opcode, 0);
      if src.Err? {
        return Err(src.error);
      }
      var value: u8;
      match src.value {
        case LoadedN8(_) =>
          return Err(InvalidLoadOperand);
        case LoadedRegister(_, v) =>
          value := v;
        case LoadedHl(_, v) =>
          value := v;
      }
      var dst := GetLoadedParam(false, opcode, 3);
      if dst.Err? {
        return Err(dst.error);
      }
      match dst.value
      case LoadedHl(addr, _) =>
        r := memory.Write(addr, value);
      case LoadedRegister(reg, _) =>
        r := Assign(reg, value);
      case LoadedN8(_) =>
        r := Err(InvalidLoadOperand);
    }

    /** load_from of src/cpu/handlers/loads.rs. */
    method LoadFromLatest(opcode: u8) returns (r: Result<()>)
      requires Valid()
      modifies this, memory, memory.oam, memory.io, memory.hram, clock
      ensures Valid()
      ensures Effect(r, State()) == Semantics.LoadFromLatest(old(State()), opcode)
    {
      var src := GetR8Param(false, opcode, 0);
      var read := R8Read(src);
      if read.Err? {
        return Err(read.error);
      }
      var dst := GetR8Param(false, opcode, 3);
      r := R8Write(dst, read.value);
    }

    // -------------------------------------------------------------------
    // JP / JR

    /** jmp (the same in all three revisions). */
    method Jmp(opcode: u8, relative: bool) returns (r: Result<()>)
      requires Valid() && JmpDefined(State(), relative)
      modifies this, clock
      ensures Valid()
      ensures Effect(r, State()) == Semantics.Jmp(old(State()), opcode, relative)
    {
      var conditional: bool;
      var target: u16;
      if relative {
        conditional := opcode != 0x18;
        var pc := regs.pc;
        var offset := Fetch();
        target := RelTarget(pc, offset);
      } else {
        conditional := opcode != 0xC3;
        var lo := Fetch();
        var hi := Fetch();
        target := ReadU16(lo, hi);
      }
      var code := ReadBits(opcode, 3, 2);
      match regs.MatchCondition(code)
      case Err(e) =>
        r := Err(e);
      case Ok(holds) =>
        if holds || !conditional {
          regs := regs.(pc := target);
          clock.Tick();
        }
        r := Ok(());
    }

    // -------------------------------------------------------------------
    // Arithmetic (src/cpu/handlers/arithmetic.rs)

    /** The operand block shared by add and sub. */
    method DirectOperand(opcode: u8, immediate: bool) returns (r: Result<u8>)
      requires Valid() && (immediate ==> regs.pc < 0xFFFF)
      modifies this, clock
      ensures Valid()
      ensures Effect(r, State()) == Semantics.DirectOperand(old(State()), opcode, immediate)
    {
      var src := ReadBits(opcode, 0, 3);
      if immediate {
        var n := Fetch();
        r := Ok(n);
      } else if src == 6 {
        clock.Tick();
        r := memory.Read(ReadU16(regs.l, regs.h));
      } else {
        r := regs.MatchR8(src);
      }
    }

    /** add. */
    method Add(opcode: u8) returns (r: Result<()>)
      requires Valid() && ArithDefined(State(), opcode, AddImmediate(opcode))
      modifies this, clock
      ensures Valid()
      ensures Effect(r, State()) == Semantics.Add(old(State()), opcode)
    {
      ghost var s0 := State();
      AddEffect(s0, opcode);
      var src := DirectOperand(opcode, opcode == 0xC6 || opcode == 0xCE);
      if src.Err? {
        return Err(src.error);
      }
      var adc := ReadBits(opcode, 3, 1);
      var addend: u8 := if adc == 1 && regs.ReadFlag(Carry) then src.value + 1 else src.value;
      regs := AddToA(regs, addend);
      r := Ok(());
    }

    /** sub. */
    method Sub(opcode: u8) returns (r: Result<()>)
      requires Valid() && ArithDefined(State(), opcode, SubImmediate(opcode))
      modifies this, clock
      ensures Valid()
      ensures Effect(r, State()) == Semantics.Sub(old(State()), opcode)
    {
      ghost var s0 := State();
      SubEffect(s0, opcode);
      var src := DirectOperand(opcode, opcode == 0xD6 || opcode == 0xDE);
      if src.Err? {
        return Err(src.error);
      }
      var sbc := ReadBits(opcode, 3, 1);
      var subtrahend: u8 := if sbc == 1 && regs.ReadFlag(Carry) then src.value + 1 else src.value;
      regs := SubFromA(regs, subtrahend);
      r := Ok(());
    }

    /** and / xor / or. */
    method Logic(opcode: u8, kind: LogicOp) returns (r: Result<()>)
      requires Valid() && (opcode == LogicImmediate(kind) ==> regs.pc < 0xFFFF)
      modifies this, clock
      ensures Valid()
      ensures Effect(r, State()) == Semantics.Logic(old(State()), opcode, kind)
    {
      var p := GetLoadedParam(opcode == LogicImmediate(kind), opcode, 0);
      if p.Err? {
        return Err(p.error);
      }
      regs := LogicWithA(regs, kind, Loaded(p.value));
      r := Ok(());
    }

    /** cp. */
    method Cp(opcode: u8) returns (r: Result<()>)
      requires Valid() && (opcode == 0xFE ==> regs.pc < 0xFFFF)
      modifies this, clock
      ensures Valid()
      ensures Effect(r, State()) == Semantics.Cp(old(State()), opcode)
    {
      var p := GetLoadedParam(opcode == 0xFE, opcode, 0);
      if p.Err? {
        return Err(p.error);
      }
      regs := CompareWithA(regs, Loaded(p.value));
      r := Ok(());
    }

    /** inc_r8 with an i8 `delta`. */
    method IncR8(opcode: u8, delta: int) returns (r: Result<()>)
      requires Valid() && -0x80 <= delta < 0x80
      modifies this, memory, memory.oam, memory.io, memory.hram, clock
      ensures Valid()
      ensures Effect(r, State()) == Semantics.IncR8(old(State()), opcode, delta)
    {
      var p := GetLoadedParam(false, opcode, 3);
      if p.Err? {
        return Err(p.error);
      }
      if p.value.LoadedN8? {
        return Ok(());
      }
      var value := Loaded(p.value);
      var res := IncResult(value, delta);
      var halfCarry := IncHalfCarryFlag(value, delta);
      var stored: Result<()>;
      if p.value.LoadedHl? {
        clock.Tick();
        clock.Tick();
        stored := memory.Write(p.value.addr, res);
      } else {
        stored := Assign(p.value.reg, res);
      }
      if stored.Err? {
        return Err(stored.error);
      }
      regs := regs.SetAllFlags(res == 0, delta < 0, halfCarry, regs.ReadFlag(Carry));
      r := Ok(());
    }

    // -------------------------------------------------------------------
    // Dispatch

    /** The load handler of this revision. */
    method LoadFrom(opcode: u8) returns (r: Result<()>)
      requires Valid()
      modifies this, memory, memory.oam, memory.io, memory.hram, clock
      ensures Valid()
      ensures Effect(r, State()) == Semantics.LoadFrom(rev, old(State()), opcode)
    {
      match rev
      case Earliest =>
        r := LoadFromEarliest(opcode);
      case Intermediate =>
        r := LoadFromIntermediate(opcode);
      case Latest =>
        r := LoadFromLatest(opcode);
    }

    /** One arm of the match in start_exec_cycle. */
    method Execute(opcode: u8) returns (r: Result<()>)
      requires Valid() && HandlerDefined(rev, State(), opcode)
      modifies this, memory, memory.oam, memory.io, memory.hram, clock
      ensures Valid()
      ensures Effect(r, State()) == Semantics.Execute(rev, old(State()), opcode)
    {
      match Decode(rev, opcode)
      case NopGroup =>
        r := Ok(());
      case JumpAbsolute =>
        r := Jmp(opcode, false);
      case JumpRelative =>
        r := Jmp(opcode, true);
      case JumpHl =>
        regs := regs.(pc := ReadU16(regs.l, regs.h));
        r := Ok(());
      case LoadGroup =>
        r := LoadFrom(opcode);
      case AddGroup =>
        r := Add(opcode);
      case SubGroup =>
        r := Sub(opcode);
      case LogicGroup(kind) =>
        r := Logic(opcode, kind);
      case CpGroup =>
        r := Cp(opcode);
      case IncDecGroup(delta) =>
        r := IncR8(opcode, delta);
      case IllegalGroup =>
        r := Err(IllegalOpcode(opcode));
      case Unsupported =>
        r := Ok(());
    }

    /** One iteration of the loop of start_exec_cycle. */
    method Step() returns (r: Result<()>)
      requires Valid() && StepDefined(rev, State())
      modifies this, memory, memory.oam, memory.io, memory.hram, clock
      ensures Valid()
      ensures Effect(r, State()) == Semantics.Step(rev, old(State()))
    {
      var opcode := Fetch();
      r := Execute(opcode);
    }

    /** start_exec_cycle for at most `fuel` iterations: it returns the first
        handler error, stops before a step that would panic, or stops when
        the fuel runs out. */
    method Run(fuel: nat) returns (stop: Stop)
      requires Valid()
      modifies this, memory, memory.oam, memory.io, memory.hram, clock
      ensures Valid()
      ensures Outcome(stop, State()) == Semantics.Run(rev, old(State()), fuel)
    {
      var remaining := fuel;
      while true
        invariant Valid()
        invariant Semantics.Run(rev, State(), remaining) == Semantics.Run(rev, old(State()), fuel)
        decreases remaining
      {
        if remaining == 0 {
          return OutOfFuel;
        }
        if !StepDefined(rev, State()) {
          return Panicked;
        }
        var r := Step();
        if r.Err? {
          return Halted(r.error);
        }
        remaining := remaining - 1;
      }
    }
  }
}
