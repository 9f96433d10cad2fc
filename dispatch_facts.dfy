/** Properties of the dispatch table of start_exec_cycle, of one step
    (fetch, then the handler) and of bounded runs of the loop. */
module DispatchFacts {
  import opened Errors
  import opened Alu
  import opened Registers
  import opened Memory
  import opened Cycles
  import opened Operands
  import opened Semantics
  import opened HandlerFacts

  // ---------------------------------------------------------------------
  // Decoding

  /** The arithmetic groups in opcode order: each block of eight in
      0x80..0xC0, and each immediate form 0xC6, 0xCE, ..., 0xFE. */
  function AluKind(j: nat): Group
    requires j < 8
  {
    [AddGroup, AddGroup, SubGroup, SubGroup,
     LogicGroup(AndOp), LogicGroup(XorOp), LogicGroup(OrOp), CpGroup][j]
  }

  predicate IsAluGroup(g: Group) {
    g.AddGroup? || g.SubGroup? || g.LogicGroup? || g.CpGroup?
  }

  /** The loads are exactly the half-open block 0x40..0x80 (0x76 included),
      in every revision. */
  lemma DecodeLoads(rev: Revision, opcode: u8)
    ensures Decode(rev, opcode) == LoadGroup <==> 0x40 <= opcode < 0x80
  {
  }

  /** The absolute jumps are JP cc / JP (0xC2, 0xD2, 0xCA, 0xDA, 0xC3), the
      relative ones JR cc / JR (0x20, 0x30, 0x28, 0x38, 0x18), and 0xE9 is
      JP HL, in every revision. */
  lemma DecodeJumps(rev: Revision, opcode: u8)
    ensures Decode(rev, opcode) == JumpAbsolute <==> opcode in {0xC2, 0xD2, 0xCA, 0xDA, 0xC3}
    ensures Decode(rev, opcode) == JumpRelative <==> opcode in {0x20, 0x30, 0x28, 0x38, 0x18}
    ensures Decode(rev, opcode) == JumpHl <==> opcode == 0xE9
    ensures Decode(rev, opcode) == NopGroup <==> opcode == 0x00
  {
  }

  /** Beyond the earliest revision, an opcode goes to an arithmetic handler
      exactly when it lies in 0x80..0xC0 or is an immediate form xxxx x110
      at or above 0xC0; the handler is the one of its block of eight. */
  lemma DecodeAluBlock(rev: Revision, opcode: u8)
    ensures IsAluGroup(Decode(rev, opcode)) <==>
      rev != Earliest && (0x80 <= opcode < 0xC0 || (0xC0 <= opcode && opcode % 8 == 6))
    ensures rev != Earliest && 0x80 <= opcode < 0xC0 ==> Decode(rev, opcode) == AluKind((opcode - 0x80) / 8)
    ensures rev != Earliest && 0xC0 <= opcode && opcode % 8 == 6 ==> Decode(rev, opcode) == AluKind((opcode - 0xC0) / 8)
  {
  }

  /** INC/DEC r8 exist in the latest revision only: x4 and xC below 0x40
      increment, x5 and xD decrement. */
  lemma DecodeIncDec(rev: Revision, opcode: u8)
    ensures Decode(rev, opcode).IncDecGroup? <==>
      rev == Latest && opcode < 0x40 && (opcode % 8 == 4 || opcode % 8 == 5)
    ensures Decode(rev, opcode).IncDecGroup? ==>
      Decode(rev, opcode).delta == (if opcode % 8 == 4 then 1 else -1)
  {
  }

  /** The eleven illegal opcodes stop the loop from the intermediate
      revision on; the earliest revision treats them as unsupported. */
  lemma DecodeIllegal(rev: Revision, opcode: u8)
    ensures Decode(rev, opcode) == IllegalGroup <==> rev != Earliest && IsIllegal(opcode)
  {
  }

  /** The revisions agree where they overlap: the intermediate table is the
      latest without INC/DEC, the earliest is the intermediate restricted to
      NOP, jumps and loads. */
  lemma DecodeRevisionsAgree(opcode: u8)
    ensures var g := Decode(Latest, opcode);
      Decode(Intermediate, opcode) == (if g.IncDecGroup? then Unsupported else g)
    ensures var g := Decode(Intermediate, opcode);
      Decode(Earliest, opcode) ==
        (if g in {NopGroup, JumpAbsolute, JumpRelative, JumpHl, LoadGroup} then g else Unsupported)
  {
  }

  // ---------------------------------------------------------------------
  // One step

  /** NOP and every opcode without an arm: the fetch and nothing else. */
  lemma StepNothing(rev: Revision, s: Machine)
    requires s.mem.Valid() && s.regs.pc < 0xFFFF
    requires Decode(rev, FetchByte(s.mem, s.regs.pc)) in {NopGroup, Unsupported}
    ensures StepDefined(rev, s)
    ensures Step(rev, s) == Effect(Ok(()), Machine(s.regs.(pc := s.regs.pc + 1), s.mem, s.clock.Inc(1)))
  {
  }

  /** An illegal opcode fails right after its fetch. */
  lemma StepIllegal(rev: Revision, s: Machine)
    requires s.mem.Valid() && s.regs.pc < 0xFFFF
    requires rev != Earliest && IsIllegal(FetchByte(s.mem, s.regs.pc))
    ensures StepDefined(rev, s)
    ensures Step(rev, s) == Effect(Err(IllegalOpcode(FetchByte(s.mem, s.regs.pc))),
                                   Machine(s.regs.(pc := s.regs.pc + 1), s.mem, s.clock.Inc(1)))
  {
    DecodeIllegal(rev, FetchByte(s.mem, s.regs.pc));
  }

  /** JP HL: PC := H * 256 + L, with no memory access beyond the fetch. */
  lemma StepJumpHl(rev: Revision, s: Machine)
    requires s.mem.Valid() && s.regs.pc < 0xFFFF && FetchByte(s.mem, s.regs.pc) == 0xE9
    ensures StepDefined(rev, s)
    ensures Step(rev, s) == Effect(Ok(()), Machine(s.regs.(pc := s.regs.h * 256 + s.regs.l), s.mem, s.clock.Inc(1)))
  {
  }

  /** The value of an r8 field does not depend on PC. */
  lemma SourceValueIgnoresPc(s: Machine, t: Machine, opcode: u8, index: nat)
    requires s.mem.Valid() && t.mem == s.mem && t.regs == s.regs.(pc := t.regs.pc)
    ensures SourceValue(t, opcode, index) == SourceValue(s, opcode, index)
  {
  }

  /** The add group dispatched on a fetched state `t`: the operand at bits
      2-0 plus the carry-in is added to A, and the [HL] operand ticks once. */
  lemma ExecuteAdd(rev: Revision, t: Machine, op: u8, regs: RegFile, y: u8)
    requires t.mem.Valid() && Decode(rev, op) == AddGroup && !AddImmediate(op)
    requires var v := SourceValue(t, op, 0); v.Ok? && (CarryIn(t.regs, op) ==> v.value < 0xFF)
    requires regs == t.regs && y == SourceValue(t, op, 0).value + (if CarryIn(t.regs, op) then 1 else 0)
    ensures HandlerDefined(rev, t, op)
    ensures Execute(rev, t, op) == Effect(Ok(()), Machine(AddToA(regs, y), t.mem, t.clock.Inc(HlCount(op, 0))))
  {
    AddOk(t, op, SourceValue(t, op, 0).value, y);
    assert HandlerDefined(rev, t, op);
  }

  /** The sub group dispatched on a fetched state `t`, as ExecuteAdd. */
  lemma ExecuteSub(rev: Revision, t: Machine, op: u8, regs: RegFile, y: u8)
    requires t.mem.Valid() && Decode(rev, op) == SubGroup && !SubImmediate(op)
    requires var v := SourceValue(t, op, 0); v.Ok? && (CarryIn(t.regs, op) ==> v.value < 0xFF)
    requires regs == t.regs && y == SourceValue(t, op, 0).value + (if CarryIn(t.regs, op) then 1 else 0)
    ensures HandlerDefined(rev, t, op)
    ensures Execute(rev, t, op) == Effect(Ok(()), Machine(SubFromA(regs, y), t.mem, t.clock.Inc(HlCount(op, 0))))
  {
    SubOk(t, op, SourceValue(t, op, 0).value, y);
    assert HandlerDefined(rev, t, op);
  }

  /** A step is the dispatch of the byte at PC on the machine with PC
      advanced and one M-cycle ticked. */
  lemma StepIsExecute(rev: Revision, s: Machine)
    requires s.mem.Valid() && s.regs.pc < 0xFFFF
    ensures var t := Machine(s.regs.(pc := s.regs.pc + 1), s.mem, s.clock.Inc(1)); var op := FetchByte(s.mem, s.regs.pc);
      t.mem.Valid() && (StepDefined(rev, s) <==> HandlerDefined(rev, t, op)) &&
      (StepDefined(rev, s) ==> Step(rev, s) == Execute(rev, t, op))
  {
    assert Fetch(s).post == Machine(s.regs.(pc := s.regs.pc + 1), s.mem, s.clock.Inc(1));
  }

  /** ADD/ADC A,r and A,[HL]: one step reads the operand at bits 2-0 and
      updates the registers by AddToA with the operand plus the carry-in;
      memory is unchanged and the [HL] operand costs one more M-cycle. */
  lemma StepAdd(rev: Revision, s: Machine, op: u8, regs: RegFile, cycles: nat, y: u8)
    requires s.mem.Valid() && s.regs.pc < 0xFFFF && op == FetchByte(s.mem, s.regs.pc)
    requires Decode(rev, op) == AddGroup && !AddImmediate(op)
    requires var v := SourceValue(s, op, 0);
      v.Ok? && y == v.value + (if CarryIn(s.regs, op) then 1 else 0)
    requires regs == s.regs.(pc := s.regs.pc + 1) && cycles == 1 + HlCount(op, 0)
    ensures StepDefined(rev, s)
    ensures Step(rev, s) == Effect(Ok(()), Machine(AddToA(regs, y), s.mem, s.clock.Inc(cycles)))
  {
    var t := Machine(regs, s.mem, s.clock.Inc(1));
    StepIsExecute(rev, s);
    SourceValueIgnoresPc(s, t, op, 0);
    assert CarryIn(t.regs, op) == CarryIn(s.regs, op);
    ExecuteAdd(rev, t, op, regs, y);
    IncAdds(s.clock, 1, HlCount(op, 0));
  }

  /** SUB/SBC A,r and A,[HL]: as StepAdd, with SubFromA. */
  lemma StepSub(rev: Revision, s: Machine, op: u8, regs: RegFile, cycles: nat, y: u8)
    requires s.mem.Valid() && s.regs.pc < 0xFFFF && op == FetchByte(s.mem, s.regs.pc)
    requires Decode(rev, op) == SubGroup && !SubImmediate(op)
    requires var v := SourceValue(s, op, 0);
      v.Ok? && y == v.value + (if CarryIn(s.regs, op) then 1 else 0)
    requires regs == s.regs.(pc := s.regs.pc + 1) && cycles == 1 + HlCount(op, 0)
    ensures StepDefined(rev, s)
    ensures Step(rev, s) == Effect(Ok(()), Machine(SubFromA(regs, y), s.mem, s.clock.Inc(cycles)))
  {
    var t := Machine(regs, s.mem, s.clock.Inc(1));
    StepIsExecute(rev, s);
    SourceValueIgnoresPc(s, t, op, 0);
    assert CarryIn(t.regs, op) == CarryIn(s.regs, op);
    ExecuteSub(rev, t, op, regs, y);
    IncAdds(s.clock, 1, HlCount(op, 0));
  }

  /** INC/DEC dispatched on a fetched state `t`: the operand at bits 5-3
      becomes `res`, in place for a register or written through the map
      for [HL] (three M-cycles), and the flags are set by IncFlags. */
  lemma ExecuteIncDec(t: Machine, op: u8, delta: int, v: u8, res: u8, regs: RegFile, mem: Mem, cycles: nat)
    requires t.mem.Valid() && Decode(Latest, op) == IncDecGroup(delta)
    requires SourceValue(t, op, 3) == Ok(v) && res == IncResult(v, delta)
    requires Field(op, 3, 3) == 6 ==> MemWrite(t.mem, t.regs.HL(), res) == (Ok(()), mem) && regs == t.regs && cycles == 3
    requires Field(op, 3, 3) != 6 ==> t.regs.SetR8(Field(op, 3, 3), res) == Ok(regs) && mem == t.mem && cycles == 0
    ensures HandlerDefined(Latest, t, op)
    ensures Execute(Latest, t, op) == Effect(Ok(()), Machine(IncFlags(regs, res, v, delta), mem, t.clock.Inc(cycles)))
  {
    DecodeIncDec(Latest, op);
    IncR8Effect(t, op, delta);
  }

  /** INC/DEC r: one step assigns the register its value plus delta, then
      sets the flags by IncFlags. */
  lemma StepIncDecRegister(s: Machine, delta: int, v: u8, res: u8, regs: RegFile)
    requires s.mem.Valid() && s.regs.pc < 0xFFFF
    requires var op := FetchByte(s.mem, s.regs.pc); Decode(Latest, op) == IncDecGroup(delta) && Field(op, 3, 3) != 6
    requires var op := FetchByte(s.mem, s.regs.pc); s.regs.MatchR8(Field(op, 3, 3)) == Ok(v) && res == IncResult(v, delta)
    requires var op := FetchByte(s.mem, s.regs.pc); s.regs.(pc := s.regs.pc + 1).SetR8(Field(op, 3, 3), res) == Ok(regs)
    ensures StepDefined(Latest, s) &&
      Step(Latest, s) == Effect(Ok(()), Machine(IncFlags(regs, res, v, delta), s.mem, s.clock.Inc(1)))
  {
    var op := FetchByte(s.mem, s.regs.pc);
    var t := Machine(s.regs.(pc := s.regs.pc + 1), s.mem, s.clock.Inc(1));
    StepIsExecute(Latest, s);
    SourceValueIgnoresPc(s, t, op, 3);
    ExecuteIncDec(t, op, delta, v, res, regs, s.mem, 0);
  }

  /** INC/DEC [HL]: one step writes the byte at HL plus delta back through
      the map and sets the flags by IncFlags, in four M-cycles. */
  lemma StepIncDecHl(s: Machine, delta: int, v: u8, res: u8, mem: Mem)
    requires s.mem.Valid() && s.regs.pc < 0xFFFF
    requires var op := FetchByte(s.mem, s.regs.pc); Decode(Latest, op) == IncDecGroup(delta) && Field(op, 3, 3) == 6
    requires MemRead(s.mem, s.regs.HL()) == Ok(v) && res == IncResult(v, delta)
    requires MemWrite(s.mem, s.regs.HL(), res) == (Ok(()), mem)
    ensures StepDefined(Latest, s) &&
      Step(Latest, s) == Effect(Ok(()), Machine(IncFlags(s.regs.(pc := s.regs.pc + 1), res, v, delta), mem, s.clock.Inc(4)))
  {
    var op := FetchByte(s.mem, s.regs.pc);
    var regs := s.regs.(pc := s.regs.pc + 1);
    var t := Machine(regs, s.mem, s.clock.Inc(1));
    StepIsExecute(Latest, s);
    SourceValueIgnoresPc(s, t, op, 3);
    assert t.regs.HL() == s.regs.HL();
    ExecuteIncDec(t, op, delta, v, res, regs, mem, 3);
    IncAdds(s.clock, 1, 3);
  }

  /** LD dispatched on a fetched state `t`: the source (bits 2-0) is copied
      to the destination (bits 5-3), one M-cycle per [HL] operand. */
  lemma ExecuteLoad(rev: Revision, t: Machine, op: u8, v: u8, regs: RegFile, mem: Mem)
    requires t.mem.Valid() && 0x40 <= op < 0x80 && SourceValue(t, op, 0) == Ok(v)
    requires Field(op, 3, 3) == 6 ==> MemWrite(t.mem, t.regs.HL(), v) == (Ok(()), mem) && regs == t.regs
    requires Field(op, 3, 3) != 6 ==> t.regs.SetR8(Field(op, 3, 3), v) == Ok(regs) && mem == t.mem
    ensures HandlerDefined(rev, t, op)
    ensures Execute(rev, t, op) == Effect(Ok(()), Machine(regs, mem, t.clock.Inc(HlCount(op, 0) + HlCount(op, 3))))
  {
    assert Decode(rev, op) == LoadGroup;
    LoadEffect(rev, t, op);
  }

  /** LD: one step copies the source (bits 2-0) to the destination (bits
      5-3), a register or the byte at HL, one M-cycle per [HL] operand. */
  lemma StepLoad(rev: Revision, s: Machine, v: u8, regs: RegFile, mem: Mem)
    requires s.mem.Valid() && s.regs.pc < 0xFFFF
    requires var op := FetchByte(s.mem, s.regs.pc); 0x40 <= op < 0x80 && SourceValue(s, op, 0) == Ok(v)
    requires var op := FetchByte(s.mem, s.regs.pc); Field(op, 3, 3) == 6 ==>
      MemWrite(s.mem, s.regs.HL(), v) == (Ok(()), mem) && regs == s.regs.(pc := s.regs.pc + 1)
    requires var op := FetchByte(s.mem, s.regs.pc); Field(op, 3, 3) != 6 ==>
      s.regs.(pc := s.regs.pc + 1).SetR8(Field(op, 3, 3), v) == Ok(regs) && mem == s.mem
    ensures var op := FetchByte(s.mem, s.regs.pc);
      StepDefined(rev, s) &&
      Step(rev, s) == Effect(Ok(()), Machine(regs, mem, s.clock.Inc(1 + HlCount(op, 0) + HlCount(op, 3))))
  {
    var op := FetchByte(s.mem, s.regs.pc);
    var t := Machine(s.regs.(pc := s.regs.pc + 1), s.mem, s.clock.Inc(1));
    StepIsExecute(rev, s);
    SourceValueIgnoresPc(s, t, op, 0);
    assert t.regs.HL() == s.regs.HL();
    ExecuteLoad(rev, t, op, v, regs, mem);
    IncAdds(s.clock, 1, HlCount(op, 0) + HlCount(op, 3));
  }

  /** JP: one step fetches the two immediates; a taken jump sets PC to the
      little-endian target and costs four M-cycles, one not taken leaves PC
      after the immediates and costs three. */
  lemma StepJumpAbsolute(rev: Revision, s: Machine)
    requires s.mem.Valid() && s.regs.pc < 0xFFFD
    requires Decode(rev, FetchByte(s.mem, s.regs.pc)) == JumpAbsolute
    ensures var op := FetchByte(s.mem, s.regs.pc);
      var taken := JumpTaken(s.regs, op, false);
      var target := FetchByte(s.mem, s.regs.pc + 1) + 256 * FetchByte(s.mem, s.regs.pc + 2);
      StepDefined(rev, s) &&
      Step(rev, s) == Effect(Ok(()), Machine(s.regs.(pc := if taken then target else s.regs.pc + 3), s.mem,
                                             s.clock.Inc(if taken then 4 else 3)))
  {
    var op := FetchByte(s.mem, s.regs.pc);
    var f := Fetch(s);
    JmpEffect(f.post, op, false);
    IncAdds(s.clock, 1, if JumpTaken(s.regs, op, false) then 3 else 2);
  }

  /** The M-cycles a handler costs when it succeeds, as a table: a taken
      jump one more than its immediates, every [HL] operand of a load one,
      an arithmetic operand one if immediate or [HL], INC/DEC [HL] three. */
  function HandlerCycles(rev: Revision, s: Machine, opcode: u8): nat
    requires s.mem.Valid()
  {
    match Decode(rev, opcode)
    case JumpAbsolute => if JumpTaken(s.regs, opcode, false) then 3 else 2
    case JumpRelative => if JumpTaken(s.regs, opcode, true) then 2 else 1
    case LoadGroup => HlCount(opcode, 0) + HlCount(opcode, 3)
    case AddGroup => if AddImmediate(opcode) then 1 else HlCount(opcode, 0)
    case SubGroup => if SubImmediate(opcode) then 1 else HlCount(opcode, 0)
    case LogicGroup(kind) => if opcode == LogicImmediate(kind) then 1 else HlCount(opcode, 0)
    case CpGroup => if opcode == 0xFE then 1 else HlCount(opcode, 0)
    case IncDecGroup(_) => 3 * HlCount(opcode, 3)
    case _ => 0
  }

  /** The arithmetic handlers cost their operand's cycles. */
  lemma AluCycles(rev: Revision, s: Machine, opcode: u8)
    requires s.mem.Valid() && HandlerDefined(rev, s, opcode) && IsAluGroup(Decode(rev, opcode))
    ensures var r := Execute(rev, s, opcode);
      r.result.Ok? ==> r.post.clock == s.clock.Inc(HandlerCycles(rev, s, opcode))
  {
    match Decode(rev, opcode)
    case AddGroup => AddEffect(s, opcode); DirectOperandEffect(s, opcode, AddImmediate(opcode));
    case SubGroup => SubEffect(s, opcode); DirectOperandEffect(s, opcode, SubImmediate(opcode));
    case LogicGroup(kind) =>
      LogicEffect(s, opcode, kind); DirectOperandEffect(s, opcode, opcode == LogicImmediate(kind));
    case CpGroup => CpEffect(s, opcode); DirectOperandEffect(s, opcode, opcode == 0xFE);
  }

  /** A successful handler costs HandlerCycles. */
  lemma ExecuteCycles(rev: Revision, s: Machine, opcode: u8)
    requires s.mem.Valid() && HandlerDefined(rev, s, opcode)
    ensures var r := Execute(rev, s, opcode);
      r.result.Ok? ==> r.post.clock == s.clock.Inc(HandlerCycles(rev, s, opcode))
  {
    var g := Decode(rev, opcode);
    if IsAluGroup(g) {
      AluCycles(rev, s, opcode);
    } else if g == JumpAbsolute {
      JmpEffect(s, opcode, false);
    } else if g == JumpRelative {
      JmpEffect(s, opcode, true);
    } else if g == LoadGroup {
      LoadEffect(rev, s, opcode);
      IncAdds(s.clock, HlCount(opcode, 0), HlCount(opcode, 3));
    } else if g.IncDecGroup? {
      IncR8Effect(s, opcode, g.delta);
    }
  }

  /** The cost of one successful step: its fetch plus its handler. */
  function StepCycles(rev: Revision, s: Machine): nat
    requires s.mem.Valid() && s.regs.pc < 0xFFFF
  {
    1 + HandlerCycles(rev, Fetch(s).post, FetchByte(s.mem, s.regs.pc))
  }

  lemma StepCycleCount(rev: Revision, s: Machine)
    requires s.mem.Valid() && StepDefined(rev, s)
    ensures Step(rev, s).result.Ok? ==> Step(rev, s).post.clock == s.clock.Inc(StepCycles(rev, s))
  {
    var f := Fetch(s);
    ExecuteCycles(rev, f.post, f.result.value);
    IncAdds(s.clock, 1, HandlerCycles(rev, f.post, f.result.value));
  }

  // ---------------------------------------------------------------------
  // The clock and the ROM across steps

  /** `b` is `a` advanced by some number of M-cycles, four T-cycles each. */
  predicate Advanced(a: Counters, b: Counters) {
    a.m <= b.m && b.c - a.c == 4 * (b.m - a.m)
  }

  /** A load, failing or not, only advances the clock and keeps the ROM
      and the bank selection. */
  lemma LoadAdvances(rev: Revision, s: Machine, opcode: u8)
    requires s.mem.Valid()
    ensures var r := LoadFrom(rev, s, opcode);
      Advanced(s.clock, r.post.clock) && SameLayout(s.mem, r.post.mem)
  {
    match rev
    case Earliest =>
    case Intermediate =>
      var src := GetLoadedParam(s, false, opcode, 0);
      var dst := GetLoadedParam(src.post, false, opcode, 3);
    case Latest =>
  }

  /** So does INC/DEC. */
  lemma IncR8Advances(s: Machine, opcode: u8, delta: int)
    requires s.mem.Valid() && -0x80 <= delta < 0x80
    ensures var r := IncR8(s, opcode, delta);
      Advanced(s.clock, r.post.clock) && SameLayout(s.mem, r.post.mem)
  {
    var p := GetLoadedParam(s, false, opcode, 3);
    assert Advanced(s.clock, p.post.clock) && p.post.mem == s.mem;
  }

  lemma AddAdvances(s: Machine, opcode: u8)
    requires s.mem.Valid() && ArithDefined(s, opcode, AddImmediate(opcode))
    ensures Advanced(s.clock, Add(s, opcode).post.clock) && SameLayout(s.mem, Add(s, opcode).post.mem)
  {
    DirectOperandEffect(s, opcode, AddImmediate(opcode));
  }

  lemma SubAdvances(s: Machine, opcode: u8)
    requires s.mem.Valid() && ArithDefined(s, opcode, SubImmediate(opcode))
    ensures Advanced(s.clock, Sub(s, opcode).post.clock) && SameLayout(s.mem, Sub(s, opcode).post.mem)
  {
    DirectOperandEffect(s, opcode, SubImmediate(opcode));
  }

  lemma LogicAdvances(s: Machine, opcode: u8, kind: LogicOp)
    requires s.mem.Valid() && (opcode == LogicImmediate(kind) ==> s.regs.pc < 0xFFFF)
    ensures Advanced(s.clock, Logic(s, opcode, kind).post.clock) && SameLayout(s.mem, Logic(s, opcode, kind).post.mem)
  {
    LoadedParamAgrees(s, opcode == LogicImmediate(kind), opcode);
    DirectOperandEffect(s, opcode, opcode == LogicImmediate(kind));
  }

  lemma CpAdvances(s: Machine, opcode: u8)
    requires s.mem.Valid() && (opcode == 0xFE ==> s.regs.pc < 0xFFFF)
    ensures Advanced(s.clock, Cp(s, opcode).post.clock) && SameLayout(s.mem, Cp(s, opcode).post.mem)
  {
    LoadedParamAgrees(s, opcode == 0xFE, opcode);
    DirectOperandEffect(s, opcode, opcode == 0xFE);
  }

  /** Every handler, failing or not, only advances the clock and keeps the
      ROM and the bank selection. */
  lemma ExecuteAdvances(rev: Revision, s: Machine, opcode: u8)
    requires s.mem.Valid() && HandlerDefined(rev, s, opcode)
    ensures var r := Execute(rev, s, opcode);
      Advanced(s.clock, r.post.clock) && SameLayout(s.mem, r.post.mem)
  {
    match Decode(rev, opcode)
    case JumpAbsolute => JmpEffect(s, opcode, false);
    case JumpRelative => JmpEffect(s, opcode, true);
    case LoadGroup => LoadAdvances(rev, s, opcode);
    case AddGroup => AddAdvances(s, opcode);
    case SubGroup => SubAdvances(s, opcode);
    case LogicGroup(kind) => LogicAdvances(s, opcode, kind);
    case CpGroup => CpAdvances(s, opcode);
    case IncDecGroup(delta) => IncR8Advances(s, opcode, delta);
    case _ =>
  }

  /** A whole bounded run only advances the clock, so counters that start
      in the 1 : 4 ratio end in it; the ROM and the bank selection are never
      changed by execution. */
  lemma {:induction false} RunAdvances(rev: Revision, s: Machine, fuel: nat)
    requires s.mem.Valid()
    ensures Advanced(s.clock, Run(rev, s, fuel).post.clock)
    ensures SameLayout(s.mem, Run(rev, s, fuel).post.mem)
    ensures s.clock.Consistent() ==> Run(rev, s, fuel).post.clock.Consistent()
    decreases fuel
  {
    if fuel > 0 && StepDefined(rev, s) {
      var f := Fetch(s);
      ExecuteAdvances(rev, f.post, f.result.value);
      var e := Step(rev, s);
      if e.result.Ok? {
        RunAdvances(rev, e.post, fuel - 1);
      }
    }
  }

  // ---------------------------------------------------------------------
  // Runs

  /** Running for a + b steps is running for a, then, if the fuel was what
      stopped it, for b more. */
  lemma {:induction false} RunSplit(rev: Revision, s: Machine, a: nat, b: nat)
    requires s.mem.Valid()
    ensures var first := Run(rev, s, a);
      Run(rev, s, a + b) == if first.stop.OutOfFuel? then Run(rev, first.post, b) else first
    decreases a
  {
    if a > 0 && StepDefined(rev, s) {
      var e := Step(rev, s);
      if e.result.Ok? {
        assert Run(rev, s, a) == Run(rev, e.post, a - 1);
        assert Run(rev, s, a + b) == Run(rev, e.post, a - 1 + b);
        RunSplit(rev, e.post, a - 1, b);
      }
    }
  }

  /** The loop has no exit but an error: a run that stopped for any other
      reason than fuel gives the same outcome with more fuel. */
  lemma RunStopsForGood(rev: Revision, s: Machine, a: nat, b: nat)
    requires s.mem.Valid() && !Run(rev, s, a).stop.OutOfFuel?
    ensures Run(rev, s, a + b) == Run(rev, s, a)
  {
    RunSplit(rev, s, a, b);
  }

  /** An illegal opcode at PC halts the loop with that opcode's error after
      its fetch. */
  lemma RunIllegalHalts(rev: Revision, s: Machine, fuel: nat)
    requires s.mem.Valid() && s.regs.pc < 0xFFFF && fuel > 0
    requires rev != Earliest && IsIllegal(FetchByte(s.mem, s.regs.pc))
    ensures Run(rev, s, fuel) ==
      Outcome(Halted(IllegalOpcode(FetchByte(s.mem, s.regs.pc))),
              Machine(s.regs.(pc := s.regs.pc + 1), s.mem, s.clock.Inc(1)))
  {
    StepIllegal(rev, s);
  }
}
