/** The fetch/decode/execute semantics as functions on a machine value:
    registers, memory and clock. The three revisions of the execution unit
    are kept apart by `Revision`:
      Earliest     — src/cpu/clu.rs: NOP, jumps and loads only; memory
                     accesses are untimed and the unit ticks explicitly.
      Intermediate — src/cpu/clu/clu.rs with src/cpu/handlers/arithmetic.rs:
                     value-carrying operands, untimed memory accesses.
      Latest       — src/cpu/cpu_context.rs, operands.rs, loads.rs and
                     jumps.rs: memory reads and writes through the context
                     tick once each; the arithmetic handlers are those of
                     arithmetic.rs (untimed accesses with explicit ticks).
    Each handler returns its result together with the machine after it, so
    a failing handler shows exactly how far it got. The imperative unit in
    module Cpu is proved to compute these functions. */
module Semantics {
  import opened Errors
  import opened Alu
  import opened Registers
  import opened Memory
  import opened Cycles
  import opened Operands

  datatype Revision = Earliest | Intermediate | Latest

  datatype Machine = Machine(regs: RegFile, mem: Mem, clock: Counters)

  /** A handler's result and the machine it leaves behind. */
  datatype Effect<+T> = Effect(result: Result<T>, post: Machine)

  function Ticked(s: Machine, n: nat): Machine {
    s.(clock := s.clock.Inc(n))
  }

  /** An untimed memory read. */
  function ReadMem(s: Machine, addr: u16): (r: Effect<u8>)
    requires s.mem.Valid()
    ensures r.post == s
  {
    Effect(MemRead(s.mem, addr), s)
  }

  /** An untimed memory write; a failed write leaves memory as it was. */
  function WriteMem(s: Machine, addr: u16, value: u8): (r: Effect<()>)
    requires s.mem.Valid()
    ensures r.post.mem.Valid() && r.post.regs == s.regs && r.post.clock == s.clock
    ensures r.result.Err? ==> r.post == s
    ensures SameLayout(s.mem, r.post.mem)
  {
    WriteKeepsShape(s.mem, addr, value, addr);
    var (res, m') := MemWrite(s.mem, addr, value);
    Effect(res, s.(mem := m'))
  }

  /** `*match_r8(reg)? = value`. */
  function Assign(s: Machine, reg: nat, value: u8): (r: Effect<()>)
    ensures r.post.mem == s.mem && r.post.clock == s.clock
    ensures r.result.Ok? <==> IsRegister(reg)
    ensures r.result.Err? ==> r.post == s
  {
    match s.regs.SetR8(reg, value)
    case Ok(regs') => Effect(Ok(()), s.(regs := regs'))
    case Err(e) => Effect(Err(e), s)
  }

  // ---------------------------------------------------------------------
  // Fetch

  /** The byte at `pc`, or 0 when the read fails. */
  function FetchByte(m: Mem, pc: u16): u8
    requires m.Valid()
  {
    match MemRead(m, pc)
    case Ok(op) => op
    case Err(_) => 0
  }

  /** fetch: the byte at PC (0 when the read fails), PC one further, one
      M-cycle. The latest revision gets its tick from the timed read, the
      earlier ones tick after the untimed read; the effect is the same.
      Incrementing PC at 0xFFFF panics in the source, hence the
      precondition. */
  function Fetch(s: Machine): (r: Effect<u8>)
    requires s.mem.Valid() && s.regs.pc < 0xFFFF
    ensures r.result.Ok? && r.post.mem == s.mem
    ensures r.post.regs == s.regs.(pc := s.regs.pc + 1) && r.post.clock == s.clock.Inc(1)
  {
    Effect(Ok(FetchByte(s.mem, s.regs.pc)), Ticked(s.(regs := s.regs.(pc := s.regs.pc + 1)), 1))
  }

  // ---------------------------------------------------------------------
  // Operands of the latest revision (src/cpu/operands.rs)

  /** get_r8_param: an immediate byte when `n8`, else the 3-bit field at
      `index`: 6 is [HL], the rest name registers. Never fails. */
  function GetR8Param(s: Machine, n8: bool, opcode: u8, index: nat): (r: Effect<R8>)
    requires s.mem.Valid() && index <= 5 && (n8 ==> s.regs.pc < 0xFFFF)
    ensures r.result.Ok? && r.post.mem == s.mem
  {
    if n8 then
      var f := Fetch(s);
      Effect(Ok(N8(f.result.value)), f.post)
    else
      var param := Field(opcode, index, 3);
      if param == 6 then Effect(Ok(Hl(s.regs.HL())), s)
      else Effect(Ok(Register(param)), s)
  }

  /** R8::read: a register, the byte at the address through the ticking
      memory read, or the immediate. */
  function R8Read(s: Machine, p: R8): (r: Effect<u8>)
    requires s.mem.Valid()
    ensures r.post.mem == s.mem && r.post.regs == s.regs
  {
    match p
    case Register(reg) => Effect(s.regs.MatchR8(reg), s)
    case Hl(addr) => ReadMem(Ticked(s, 1), addr)
    case N8(n) => Effect(Ok(n), s)
  }

  /** R8::write: assign a register, write the byte through the ticking
      memory write, or do nothing for an immediate. */
  function R8Write(s: Machine, p: R8, value: u8): (r: Effect<()>)
    requires s.mem.Valid()
    ensures r.post.mem.Valid()
  {
    match p
    case Register(reg) => Assign(s, reg, value)
    case Hl(addr) => WriteMem(Ticked(s, 1), addr, value)
    case N8(_) => Effect(Ok(()), s)
  }

  // ---------------------------------------------------------------------
  // Operands of the intermediate revision (src/cpu/clu/clu.rs)

  /** get_r8_param, value-carrying: an immediate byte when `n8`; for [HL]
      one tick, then the untimed read of the byte; else the register and
      its value. */
  function GetLoadedParam(s: Machine, n8: bool, opcode: u8, index: nat): (r: Effect<LoadedR8>)
    requires s.mem.Valid() && index <= 5 && (n8 ==> s.regs.pc < 0xFFFF)
    ensures r.post.mem == s.mem
    ensures !n8 ==> r.post.regs == s.regs
    ensures r.result.Ok? && !n8 ==> !r.result.value.LoadedN8?
  {
    if n8 then
      var f := Fetch(s);
      Effect(Ok(LoadedN8(f.result.value)), f.post)
    else
      var param := Field(opcode, index, 3);
      if param == 6 then
        var addr := s.regs.HL();
        var t := Ticked(s, 1);
        match MemRead(t.mem, addr)
        case Ok(value) => Effect(Ok(LoadedHl(addr, value)), t)
        case Err(e) => Effect(Err(e), t)
      else
        match s.regs.MatchR8(param)
        case Ok(value) => Effect(Ok(LoadedRegister(param, value)), s)
        case Err(e) => Effect(Err(e), s)
  }

  /** The value an operand carries. */
  function Loaded(p: LoadedR8): u8 {
    match p
    case LoadedRegister(_, value) => value
    case LoadedHl(_, value) => value
    case LoadedN8(n) => n
  }

  // ---------------------------------------------------------------------
  // LD r8/[hl], r8/[hl] (opcodes 0x40..0x80): source field bits 2-0,
  // destination field bits 5-3.

  /** load_from of src/cpu/clu.rs: [HL] source ticks then reads; [HL]
      destination ticks then writes; registers cost nothing. The register
      accesses there go through `match_register`, taken here to be
      `match_r8` (same b, c, d, e, h, l, -, a order, failing on 6). */
  function LoadFromEarliest(s: Machine, opcode: u8): (r: Effect<()>)
    requires s.mem.Valid()
    ensures r.post.mem.Valid()
  {
    var src := Field(opcode, 0, 3);
    var read := if src == 6 then ReadMem(Ticked(s, 1), s.regs.HL()) else Effect(s.regs.MatchR8(src), s);
    match read.result
    case Err(e) => Effect(Err(e), read.post)
    case Ok(value) =>
      var dst := Field(opcode, 3, 3);
      if dst == 6 then WriteMem(Ticked(read.post, 1), read.post.regs.HL(), value)
      else Assign(read.post, dst, value)
  }

  /** load_from of src/cpu/clu/clu.rs: both operands are decoded with their
      values (an [HL] destination ticks and reads at decode time); the write
      of an [HL] destination is untimed. An immediate operand is an error
      (never produced, since `n8` is false). */
  function LoadFromIntermediate(s: Machine, opcode: u8): (r: Effect<()>)
    requires s.mem.Valid()
    ensures r.post.mem.Valid()
  {
    var src := GetLoadedParam(s, false, opcode, 0);
    match src.result
    case Err(e) => Effect(Err(e), src.post)
    case Ok(LoadedN8(_)) => Effect(Err(InvalidLoadOperand), src.post)
    case Ok(operand) =>
      var value := Loaded(operand);
      var dst := GetLoadedParam(src.post, false, opcode, 3);
      match dst.result
      case Err(e) => Effect(Err(e), dst.post)
      case Ok(LoadedHl(addr, _)) => WriteMem(dst.post, addr, value)
      case Ok(LoadedRegister(reg, _)) => Assign(dst.post, reg, value)
      case Ok(LoadedN8(_)) => Effect(Err(InvalidLoadOperand), dst.post)
  }

  /** load_from of src/cpu/handlers/loads.rs: read the source operand, then
      write the destination operand, both through R8. */
  function LoadFromLatest(s: Machine, opcode: u8): (r: Effect<()>)
    requires s.mem.Valid()
    ensures r.post.mem.Valid()
  {
    var src := GetR8Param(s, false, opcode, 0);
    var read := R8Read(src.post, src.result.value);
    match read.result
    case Err(e) => Effect(Err(e), read.post)
    case Ok(value) =>
      var dst := GetR8Param(read.post, false, opcode, 3);
      R8Write(dst.post, dst.result.value, value)
  }

  function LoadFrom(rev: Revision, s: Machine, opcode: u8): (r: Effect<()>)
    requires s.mem.Valid()
    ensures r.post.mem.Valid()
  {
    match rev
    case Earliest => LoadFromEarliest(s, opcode)
    case Intermediate => LoadFromIntermediate(s, opcode)
    case Latest => LoadFromLatest(s, opcode)
  }

  // ---------------------------------------------------------------------
  // JP / JR

  /** `x as i16` for a u16. */
  function AsI16(x: u16): int {
    if x < 0x8000 then x else x - 0x1_0000
  }

  /** `pc as i16 + offset as i16` overflows i16 (a panic in the source);
      the offset byte is zero-extended, so only the upper end can overflow. */
  predicate RelOverflows(pc: u16, offset: u8) {
    AsI16(pc) + offset > 0x7FFF
  }

  /** `(pc as i16 + offset as i16) as u16`. */
  function RelTarget(pc: u16, offset: u8): u16 {
    (AsI16(pc) + offset) % 0x1_0000
  }

  /** The jump does not panic: its fetches stay below PC 0xFFFF and the
      relative sum fits in i16. */
  predicate JmpDefined(s: Machine, relative: bool)
    requires s.mem.Valid()
  {
    if relative then s.regs.pc < 0xFFFF && !RelOverflows(s.regs.pc, FetchByte(s.mem, s.regs.pc))
    else s.regs.pc < 0xFFFE
  }

  /** jmp: JR takes its target from PC (read before the offset is fetched)
      plus the offset byte; JP from two fetched bytes, low first. 0x18 and
      0xC3 are unconditional, the others test condition bits 4-3. A taken
      jump sets PC and ticks once more. */
  function Jmp(s: Machine, opcode: u8, relative: bool): (r: Effect<()>)
    requires s.mem.Valid() && JmpDefined(s, relative)
    ensures r.post.mem == s.mem
  {
    var conditional := if relative then opcode != 0x18 else opcode != 0xC3;
    var first := Fetch(s);
    var second := if relative then first else Fetch(first.post);
    var target := if relative then RelTarget(s.regs.pc, first.result.value)
                  else ReadU16(first.result.value, second.result.value);
    var t := second.post;
    match t.regs.MatchCondition(Field(opcode, 3, 2))
    case Err(e) => Effect(Err(e), t)
    case Ok(holds) =>
      if holds || !conditional then Effect(Ok(()), Ticked(t.(regs := t.regs.(pc := target)), 1))
      else Effect(Ok(()), t)
  }

  // ---------------------------------------------------------------------
  // Arithmetic (src/cpu/handlers/arithmetic.rs)

  /** `x & 0xF`. */
  function LowNibble(x: u8): u8 {
    And8(x, 0xF)
  }

  /** The operand block of add and sub: an immediate, or for field 6 one
      explicit tick and the untimed read at HL, or the register. */
  function DirectOperand(s: Machine, opcode: u8, immediate: bool): (r: Effect<u8>)
    requires s.mem.Valid() && (immediate ==> s.regs.pc < 0xFFFF)
    ensures r.post.mem == s.mem
  {
    if immediate then Fetch(s)
    else
      var src := Field(opcode, 0, 3);
      if src == 6 then ReadMem(Ticked(s, 1), s.regs.HL())
      else Effect(s.regs.MatchR8(src), s)
  }

  /** ADC/SBC (opcode bit 3 set) with the carry flag set add 1 to the operand. */
  predicate CarryIn(regs: RegFile, opcode: u8) {
    Field(opcode, 3, 1) == 1 && regs.ReadFlag(Carry)
  }

  predicate AddImmediate(opcode: u8) { opcode == 0xC6 || opcode == 0xCE }

  predicate SubImmediate(opcode: u8) { opcode == 0xD6 || opcode == 0xDE }

  /** The handler does not panic: the immediate fetch has a PC to advance,
      and `src + 1` (u8) does not overflow. */
  predicate ArithDefined(s: Machine, opcode: u8, immediate: bool)
    requires s.mem.Valid()
  {
    (immediate ==> s.regs.pc < 0xFFFF) &&
    var o := DirectOperand(s, opcode, immediate);
    o.result.Ok? && CarryIn(o.post.regs, opcode) ==> o.result.value < 0xFF
  }

  /** The register update of add: flags H, C, Z set in that order, N
      cleared, then A := A + addend wrapping. */
  function AddToA(regs: RegFile, addend: u8): RegFile {
    var halfCarry := LowNibble(regs.a) + LowNibble(addend) > 0xF;
    var sum := regs.a + addend;
    var res: u8 := sum % 0x100;
    regs.SetFlag(HalfCarry, halfCarry).SetFlag(Carry, sum > 0xFF)
        .SetFlag(Zero, res == 0).SetFlag(Subtract, false).(a := res)
  }

  /** The register update of sub: flags H, C, Z set in that order, N set,
      then A := A - subtrahend wrapping. */
  function SubFromA(regs: RegFile, subtrahend: u8): RegFile {
    var halfCarry := LowNibble(regs.a) < LowNibble(subtrahend);
    var res: u8 := (regs.a - subtrahend) % 0x100;
    regs.SetFlag(HalfCarry, halfCarry).SetFlag(Carry, regs.a < subtrahend)
        .SetFlag(Zero, res == 0).SetFlag(Subtract, true).(a := res)
  }

  /** add: ADD/ADC A, operand (plus the carry for ADC). */
  function Add(s: Machine, opcode: u8): (r: Effect<()>)
    requires s.mem.Valid() && ArithDefined(s, opcode, AddImmediate(opcode))
    ensures r.post.mem == s.mem
  {
    var o := DirectOperand(s, opcode, AddImmediate(opcode));
    match o.result
    case Err(e) => Effect(Err(e), o.post)
    case Ok(src) =>
      var addend: u8 := if CarryIn(o.post.regs, opcode) then src + 1 else src;
      Effect(Ok(()), o.post.(regs := AddToA(o.post.regs, addend)))
  }

  /** sub: SUB/SBC A, operand (plus the carry for SBC). */
  function Sub(s: Machine, opcode: u8): (r: Effect<()>)
    requires s.mem.Valid() && ArithDefined(s, opcode, SubImmediate(opcode))
    ensures r.post.mem == s.mem
  {
    var o := DirectOperand(s, opcode, SubImmediate(opcode));
    match o.result
    case Err(e) => Effect(Err(e), o.post)
    case Ok(src) =>
      var subtrahend: u8 := if CarryIn(o.post.regs, opcode) then src + 1 else src;
      Effect(Ok(()), o.post.(regs := SubFromA(o.post.regs, subtrahend)))
  }

  datatype LogicOp = AndOp | XorOp | OrOp

  /** The immediate form of each logic instruction. */
  function LogicImmediate(kind: LogicOp): u8 {
    match kind
    case AndOp => 0xE6
    case XorOp => 0xEE
    case OrOp => 0xF6
  }

  function ApplyLogic(kind: LogicOp, x: u8, y: u8): u8 {
    match kind
    case AndOp => And8(x, y)
    case XorOp => Xor8(x, y)
    case OrOp => Or8(x, y)
  }

  /** The register update of and / xor / or: A op= operand, then flags
      [Z, 0, 1 for AND else 0, 0]. */
  function LogicWithA(regs: RegFile, kind: LogicOp, operand: u8): RegFile {
    var a := ApplyLogic(kind, regs.a, operand);
    regs.(a := a).SetAllFlags(a == 0, false, kind == AndOp, false)
  }

  /** and / xor / or. */
  function Logic(s: Machine, opcode: u8, kind: LogicOp): (r: Effect<()>)
    requires s.mem.Valid() && (opcode == LogicImmediate(kind) ==> s.regs.pc < 0xFFFF)
    ensures r.post.mem == s.mem
  {
    var p := GetLoadedParam(s, opcode == LogicImmediate(kind), opcode, 0);
    match p.result
    case Err(e) => Effect(Err(e), p.post)
    case Ok(operand) => Effect(Ok(()), p.post.(regs := LogicWithA(p.post.regs, kind, Loaded(operand))))
  }

  /** The register update of cp: flags [Z, 1, H, C] of A - operand; A is
      kept. */
  function CompareWithA(regs: RegFile, subtrahend: u8): RegFile {
    var halfCarry := LowNibble(regs.a) < LowNibble(subtrahend);
    var res := (regs.a - subtrahend) % 0x100;
    regs.SetAllFlags(res == 0, true, halfCarry, regs.a < subtrahend)
  }

  /** cp. */
  function Cp(s: Machine, opcode: u8): (r: Effect<()>)
    requires s.mem.Valid() && (opcode == 0xFE ==> s.regs.pc < 0xFFFF)
    ensures r.post.mem == s.mem
  {
    var p := GetLoadedParam(s, opcode == 0xFE, opcode, 0);
    match p.result
    case Err(e) => Effect(Err(e), p.post)
    case Ok(operand) => Effect(Ok(()), p.post.(regs := CompareWithA(p.post.regs, Loaded(operand))))
  }

  /** inc_r8's new value: `wrapping_sub(delta.unsigned_abs())` for a
      negative delta, else `wrapping_add(delta as u8)`. */
  function IncResult(value: u8, delta: int): u8
    requires -0x80 <= delta < 0x80
  {
    if delta < 0 then (value - (-delta)) % 0x100 else (value + delta) % 0x100
  }

  /** inc_r8's half carry, on the low nibbles of the value and of the
      delta's magnitude. */
  function IncHalfCarryFlag(value: u8, delta: int): bool
    requires -0x80 <= delta < 0x80
  {
    if delta < 0 then LowNibble(value) < LowNibble(-delta)
    else LowNibble(value) + LowNibble(delta) > 0xF
  }

  /** inc_r8 with an i8 `delta`: the operand at bits 5-3 (for [HL], one tick
      and the read) changes by `delta`, wrapping; a negative delta
      subtracts its magnitude. [HL] then ticks twice and writes untimed, a
      register is assigned; a failed store skips the flags. Flags
      [Z, delta < 0, H, C kept]. */
  function IncR8(s: Machine, opcode: u8, delta: int): (r: Effect<()>)
    requires s.mem.Valid() && -0x80 <= delta < 0x80
    ensures r.post.mem.Valid()
  {
    var p := GetLoadedParam(s, false, opcode, 3);
    match p.result
    case Err(e) => Effect(Err(e), p.post)
    case Ok(operand) =>
      var value := Loaded(operand);
      var res := IncResult(value, delta);
      var halfCarry := IncHalfCarryFlag(value, delta);
      match operand
      case LoadedN8(_) => Effect(Ok(()), p.post)
      case LoadedHl(addr, _) => SetIncFlags(WriteMem(Ticked(p.post, 2), addr, res), res, delta, halfCarry)
      case LoadedRegister(reg, _) => SetIncFlags(Assign(p.post, reg, res), res, delta, halfCarry)
  }

  /** The tail of inc_r8: a failed store skips the flags; otherwise
      [Z, delta < 0, H, C kept]. */
  function SetIncFlags(stored: Effect<()>, res: u8, delta: int, halfCarry: bool): (r: Effect<()>)
    ensures r.post.mem == stored.post.mem
  {
    match stored.result
    case Err(e) => Effect(Err(e), stored.post)
    case Ok(_) =>
      var regs := stored.post.regs;
      Effect(Ok(()), stored.post.(regs := regs.SetAllFlags(res == 0, delta < 0, halfCarry, regs.ReadFlag(Carry))))
  }

  // ---------------------------------------------------------------------
  // Dispatch

  datatype Group =
    | NopGroup
    | JumpAbsolute
    | JumpRelative
    | JumpHl
    | LoadGroup
    | AddGroup
    | SubGroup
    | LogicGroup(kind: LogicOp)
    | CpGroup
    | IncDecGroup(delta: int)
    | IllegalGroup
    | Unsupported

  predicate IsIllegal(opcode: u8) {
    opcode in {0xD3, 0xDB, 0xDD, 0xE3, 0xE4, 0xEB, 0xEC, 0xED, 0xF4, 0xFC, 0xFD}
  }

  /** The match arms of start_exec_cycle, first match wins. The earliest
      revision stops after the loads; INC/DEC are in the latest only. */
  function Decode(rev: Revision, opcode: u8): Group {
    if opcode == 0x00 then NopGroup
    else if opcode in {0xC2, 0xD2, 0xCA, 0xDA, 0xC3} then JumpAbsolute
    else if opcode in {0x20, 0x30, 0x28, 0x38, 0x18} then JumpRelative
    else if opcode == 0xE9 then JumpHl
    else if 0x40 <= opcode < 0x80 then LoadGroup
    else if rev == Earliest then Unsupported
    else if 0x80 <= opcode < 0x90 || AddImmediate(opcode) then AddGroup
    else if 0x90 <= opcode < 0xA0 || SubImmediate(opcode) then SubGroup
    else if 0xA0 <= opcode < 0xA8 || opcode == 0xE6 then LogicGroup(AndOp)
    else if 0xA8 <= opcode < 0xB0 || opcode == 0xEE then LogicGroup(XorOp)
    else if 0xB0 <= opcode < 0xB8 || opcode == 0xF6 then LogicGroup(OrOp)
    else if 0xB8 <= opcode < 0xC0 || opcode == 0xFE then CpGroup
    else if rev == Latest && opcode in {0x04, 0x14, 0x24, 0x34, 0x0C, 0x1C, 0x2C, 0x3C} then IncDecGroup(1)
    else if rev == Latest && opcode in {0x05, 0x15, 0x25, 0x35, 0x0D, 0x1D, 0x2D, 0x3D} then IncDecGroup(-1)
    else if IsIllegal(opcode) then IllegalGroup
    else Unsupported
  }

  /** The handler for `opcode` does not panic on `s`. */
  predicate HandlerDefined(rev: Revision, s: Machine, opcode: u8)
    requires s.mem.Valid()
  {
    match Decode(rev, opcode)
    case JumpAbsolute => JmpDefined(s, false)
    case JumpRelative => JmpDefined(s, true)
    case AddGroup => ArithDefined(s, opcode, AddImmediate(opcode))
    case SubGroup => ArithDefined(s, opcode, SubImmediate(opcode))
    case LogicGroup(kind) => opcode == LogicImmediate(kind) ==> s.regs.pc < 0xFFFF
    case CpGroup => opcode == 0xFE ==> s.regs.pc < 0xFFFF
    case _ => true
  }

  /** One arm of the dispatch, after the opcode has been fetched. */
  function Execute(rev: Revision, s: Machine, opcode: u8): (r: Effect<()>)
    requires s.mem.Valid() && HandlerDefined(rev, s, opcode)
    ensures r.post.mem.Valid()
  {
    match Decode(rev, opcode)
    case NopGroup => Effect(Ok(()), s)
    case JumpAbsolute => Jmp(s, opcode, false)
    case JumpRelative => Jmp(s, opcode, true)
    case JumpHl => Effect(Ok(()), s.(regs := s.regs.(pc := s.regs.HL())))
    case LoadGroup => LoadFrom(rev, s, opcode)
    case AddGroup => Add(s, opcode)
    case SubGroup => Sub(s, opcode)
    case LogicGroup(kind) => Logic(s, opcode, kind)
    case CpGroup => Cp(s, opcode)
    case IncDecGroup(delta) => IncR8(s, opcode, delta)
    case IllegalGroup => Effect(Err(IllegalOpcode(opcode)), s)
    case Unsupported => Effect(Ok(()), s)
  }

  /** One iteration of the loop does not panic. */
  predicate StepDefined(rev: Revision, s: Machine)
    requires s.mem.Valid()
  {
    s.regs.pc < 0xFFFF && HandlerDefined(rev, Fetch(s).post, Fetch(s).result.value)
  }

  /** One iteration of start_exec_cycle: fetch, then dispatch. */
  function Step(rev: Revision, s: Machine): (r: Effect<()>)
    requires s.mem.Valid() && StepDefined(rev, s)
    ensures r.post.mem.Valid()
  {
    var f := Fetch(s);
    Execute(rev, f.post, f.result.value)
  }

  /** Why a bounded run stopped: a handler's error (the only way the loop
      returns), a step that would panic, or the fuel ran out. */
  datatype Stop = Halted(error: Error) | Panicked | OutOfFuel

  datatype Outcome = Outcome(stop: Stop, post: Machine)

  /** start_exec_cycle for at most `fuel` iterations. */
  function Run(rev: Revision, s: Machine, fuel: nat): (r: Outcome)
    requires s.mem.Valid()
    ensures r.post.mem.Valid()
    decreases fuel
  {
    if fuel == 0 then Outcome(OutOfFuel, s)
    else if !StepDefined(rev, s) then Outcome(Panicked, s)
    else
      var e := Step(rev, s);
      match e.result
      case Err(error) => Outcome(Halted(error), e.post)
      case Ok(_) => Run(rev, e.post, fuel - 1)
  }
}
