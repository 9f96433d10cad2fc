/** The examples of the repository's tests (the files under tests/, src/cpu/alu/tests.rs and
    src/cpu/clu/tests.rs), stated for every machine that holds the test's
    program at address 0 and the test's register and memory values. Each
    program ends in 0xDD, an illegal opcode, which is what stops the loop.
    The counts are those of the run itself: a test that writes or reads
    memory through the ticking map around the run adds those ticks. */
module Scenarios {
  import opened Errors
  import opened Alu
  import opened Registers
  import opened Memory
  import opened Cycles
  import opened Operands
  import opened Semantics
  import opened HandlerFacts
  import opened DispatchFacts

  /** The operand fields of the opcodes the examples run. */
  lemma OpcodeFields()
    ensures Field(0x8E, 0, 3) == 6 && Field(0x8E, 3, 1) == 1
    ensures Field(0x9E, 0, 3) == 6 && Field(0x9E, 3, 1) == 1
    ensures Field(0x80, 0, 3) == 0 && Field(0x80, 3, 1) == 0
    ensures Field(0x91, 0, 3) == 1 && Field(0x91, 3, 1) == 0
    ensures Field(0x04, 3, 3) == 0
    ensures Field(0x35, 3, 3) == 6
    ensures Field(0x45, 0, 3) == 5 && Field(0x45, 3, 3) == 0
    ensures Field(0x46, 0, 3) == 6 && Field(0x46, 3, 3) == 0
    ensures Field(0x77, 0, 3) == 7 && Field(0x77, 3, 3) == 6
    ensures Field(0xC2, 3, 2) == 0
  {
    Pow2Byte(0); Pow2Byte(1); Pow2Byte(2); Pow2Byte(3);
    FieldIsDivMod(0x8E, 0, 3);
    FieldIsDivMod(0x8E, 3, 1);
    FieldIsDivMod(0x9E, 0, 3);
    FieldIsDivMod(0x9E, 3, 1);
    FieldIsDivMod(0x80, 0, 3);
    FieldIsDivMod(0x80, 3, 1);
    FieldIsDivMod(0x91, 0, 3);
    FieldIsDivMod(0x91, 3, 1);
    FieldIsDivMod(0x04, 3, 3);
    FieldIsDivMod(0x35, 3, 3);
    FieldIsDivMod(0x45, 0, 3);
    FieldIsDivMod(0x45, 3, 3);
    FieldIsDivMod(0x46, 0, 3);
    FieldIsDivMod(0x46, 3, 3);
    FieldIsDivMod(0x77, 0, 3);
    FieldIsDivMod(0x77, 3, 3);
    FieldIsDivMod(0xC2, 3, 2);
  }

  /** PC is 0 and fetching from 0 and 1 gives `b0`, `b1`. */
  predicate ProgramOf2(s: Machine, b0: u8, b1: u8)
    requires s.mem.Valid()
  {
    s.regs.pc == 0 && FetchByte(s.mem, 0) == b0 && FetchByte(s.mem, 1) == b1
  }

  /** PC is 0 and fetching from 0 to 4 gives `b0` to `b4`. */
  predicate ProgramOf5(s: Machine, b0: u8, b1: u8, b2: u8, b3: u8, b4: u8)
    requires s.mem.Valid()
  {
    ProgramOf2(s, b0, b1) && FetchByte(s.mem, 2) == b2 && FetchByte(s.mem, 3) == b3 && FetchByte(s.mem, 4) == b4
  }

  /** A step that succeeds with machine `p` followed by an illegal opcode:
      a run of two steps halts with that opcode's error after its fetch. */
  lemma RunThenIllegal(rev: Revision, s: Machine, p: Machine)
    requires rev != Earliest && s.mem.Valid() && p.mem.Valid()
    requires StepDefined(rev, s) && Step(rev, s) == Effect(Ok(()), p)
    requires p.regs.pc < 0xFFFF && IsIllegal(FetchByte(p.mem, p.regs.pc))
    ensures Run(rev, s, 2) == Outcome(Halted(IllegalOpcode(FetchByte(p.mem, p.regs.pc))),
                                      Machine(p.regs.(pc := p.regs.pc + 1), p.mem, p.clock.Inc(1)))
  {
    RunIllegalHalts(rev, p, 1);
  }

  /** Flag facts carry over to a register file with the same F, and to
      flag values that are equal. */
  lemma FlagsCarry(out: RegFile, before: RegFile, out2: RegFile, before2: RegFile,
                   z: bool, n: bool, hc: bool, cy: bool, z2: bool, n2: bool, hc2: bool, cy2: bool)
    requires FlagsAre(out, before, z, n, hc, cy)
    requires out2.f == out.f && before2.f == before.f && z == z2 && n == n2 && hc == hc2 && cy == cy2
    ensures FlagsAre(out2, before2, z2, n2, hc2, cy2)
  {
  }

  /** The ADD/ADC result for concrete operands: the sum modulo 256 with
      the flags AddToAEffect gives. */
  lemma AddRegs(r: RegFile, y: u8, a: u8, z: bool, n: bool, hc: bool, cy: bool)
    requires a == (r.a + y) % 256 && z == (a == 0) && !n
    requires hc == (r.a % 16 + y % 16 > 15) && cy == (r.a + y > 255)
    ensures var out := AddToA(r, y); out == r.(a := a, f := out.f) && FlagsAre(out, r, z, n, hc, cy)
  {
    var out := AddToA(r, y);
    AddToAEffect(r, y);
    FlagsCarry(out, r, out, r, out.a == 0, false, r.a % 16 + y % 16 > 15, r.a + y > 255, z, n, hc, cy);
  }

  /** The SUB/SBC result for concrete operands. */
  lemma SubRegs(r: RegFile, y: u8, a: u8, z: bool, n: bool, hc: bool, cy: bool)
    requires a == (r.a - y) % 256 && z == (a == 0) && n
    requires hc == (r.a % 16 < y % 16) && cy == (r.a < y)
    ensures var out := SubFromA(r, y); out == r.(a := a, f := out.f) && FlagsAre(out, r, z, n, hc, cy)
  {
    var out := SubFromA(r, y);
    SubFromAEffect(r, y);
    FlagsCarry(out, r, out, r, out.a == 0, true, r.a % 16 < y % 16, r.a < y, z, n, hc, cy);
  }

  /** The INC/DEC result for a concrete operand. */
  lemma IncRegs(r: RegFile, v: u8, delta: int, res: u8, z: bool, n: bool, hc: bool)
    requires delta == 1 || delta == -1
    requires res == (v + delta) % 256 && z == (res == 0) && n == (delta < 0)
    requires hc == (if delta == 1 then v % 16 == 15 else v % 16 == 0)
    ensures var out := IncFlags(r, res, v, delta);
      IncResult(v, delta) == res && out == r.(f := out.f) && FlagsAre(out, r, z, n, hc, r.ReadFlag(Carry))
  {
    IncResultEffect(v, delta);
    AllFlags(r, z, n, hc, r.ReadFlag(Carry));
  }

  /** An ADD/ADC step's effect, read off for concrete operands. */
  lemma AddOutcome(e: Effect<()>, s: Machine, y: u8, cycles: nat, a: u8, z: bool, n: bool, hc: bool, cy: bool)
    requires e == Effect(Ok(()), Machine(AddToA(s.regs.(pc := 1), y), s.mem, s.clock.Inc(cycles)))
    requires a == (s.regs.a + y) % 256 && z == (a == 0) && !n
    requires hc == (s.regs.a % 16 + y % 16 > 15) && cy == (s.regs.a + y > 255)
    ensures e.result == Ok(()) && e.post.mem == s.mem && e.post.clock == s.clock.Inc(cycles)
    ensures e.post.regs.pc == 1 && e.post.regs.a == a && FlagsAre(e.post.regs, s.regs, z, n, hc, cy)
  {
    var r := s.regs.(pc := 1);
    AddRegs(r, y, a, z, n, hc, cy);
    FlagsCarry(AddToA(r, y), r, AddToA(r, y), s.regs, z, n, hc, cy, z, n, hc, cy);
  }

  /** A SUB/SBC step's effect, read off for concrete operands. */
  lemma SubOutcome(e: Effect<()>, s: Machine, y: u8, cycles: nat, a: u8, z: bool, n: bool, hc: bool, cy: bool)
    requires e == Effect(Ok(()), Machine(SubFromA(s.regs.(pc := 1), y), s.mem, s.clock.Inc(cycles)))
    requires a == (s.regs.a - y) % 256 && z == (a == 0) && n
    requires hc == (s.regs.a % 16 < y % 16) && cy == (s.regs.a < y)
    ensures e.result == Ok(()) && e.post.mem == s.mem && e.post.clock == s.clock.Inc(cycles)
    ensures e.post.regs.pc == 1 && e.post.regs.a == a && FlagsAre(e.post.regs, s.regs, z, n, hc, cy)
  {
    var r := s.regs.(pc := 1);
    SubRegs(r, y, a, z, n, hc, cy);
    FlagsCarry(SubFromA(r, y), r, SubFromA(r, y), s.regs, z, n, hc, cy, z, n, hc, cy);
  }

  /** An INC/DEC step's effect, read off for a concrete operand. */
  lemma IncOutcome(e: Effect<()>, s: Machine, regs: RegFile, mem: Mem, cycles: nat,
                   v: u8, delta: int, res: u8, z: bool, n: bool, hc: bool)
    requires delta == 1 || delta == -1
    requires e == Effect(Ok(()), Machine(IncFlags(regs, res, v, delta), mem, s.clock.Inc(cycles)))
    requires regs.f == s.regs.f
    requires res == (v + delta) % 256 && z == (res == 0) && n == (delta < 0)
    requires hc == (if delta == 1 then v % 16 == 15 else v % 16 == 0)
    ensures e.result == Ok(()) && e.post.mem == mem && e.post.clock == s.clock.Inc(cycles)
    ensures e.post.regs == regs.(f := e.post.regs.f)
    ensures FlagsAre(e.post.regs, s.regs, z, n, hc, s.regs.ReadFlag(Carry))
  {
    IncRegs(regs, v, delta, res, z, n, hc);
    var out := IncFlags(regs, res, v, delta);
    FlagsCarry(out, regs, out, s.regs, z, n, hc, regs.ReadFlag(Carry), z, n, hc, s.regs.ReadFlag(Carry));
  }

  /** The arithmetic of the ADC and SBC examples, kept apart from the
      register-file terms so that the solver does it on plain integers. */
  lemma ExampleArithmetic(a: u8, y: u8)
    ensures a == 172 && y == 109 ==> (a + y) % 256 == 25 && a % 16 + y % 16 > 15 && a + y > 255
    ensures a == 255 && y == 1 ==> (a + y) % 256 == 0 && a % 16 + y % 16 > 15 && a + y > 255
    ensures a == 64 && y == 109 ==> (a - y) % 256 == 211 && a % 16 < y % 16 && a < y
    ensures a == 1 && y == 1 ==> (a - y) % 256 == 0 && !(a % 16 < y % 16) && !(a < y)
  {
  }

  /** The [HL] operand at address 0xC001 of ADC A,[HL] and SBC A,[HL]. */
  lemma HlOperandAtC001(s: Machine, op: u8)
    requires s.mem.Valid() && s.regs.h == 0xC0 && s.regs.l == 0x01 && (op == 0x8E || op == 0x9E)
    ensures SourceValue(s, op, 0) == MemRead(s.mem, 0xC001) && HlCount(op, 0) == 1
    ensures s.regs.ReadFlag(Carry) ==> CarryIn(s.regs, op)
  {
    OpcodeFields();
    assert s.regs.HL() == 0xC001;
  }

  /** An ADD-group opcode at address 0 whose carry is added: A plus the
      operand plus one. */
  lemma AddWithCarryEffect(rev: Revision, s: Machine, op: u8, v: u8, y: u8)
    requires s.mem.Valid() && s.regs.pc == 0 && FetchByte(s.mem, 0) == op
    requires Decode(rev, op) == AddGroup && !AddImmediate(op)
    requires SourceValue(s, op, 0) == Ok(v) && HlCount(op, 0) == 1 && CarryIn(s.regs, op) && y == v + 1
    ensures StepDefined(rev, s)
    ensures Step(rev, s) == Effect(Ok(()), Machine(AddToA(s.regs.(pc := 1), y), s.mem, s.clock.Inc(2)))
  {
    StepAdd(rev, s, op, s.regs.(pc := 1), 2, y);
  }

  /** A SUB-group opcode at address 0 whose carry is subtracted: A minus the
      operand minus one. */
  lemma SubWithCarryEffect(rev: Revision, s: Machine, op: u8, v: u8, y: u8)
    requires s.mem.Valid() && s.regs.pc == 0 && FetchByte(s.mem, 0) == op
    requires Decode(rev, op) == SubGroup && !SubImmediate(op)
    requires SourceValue(s, op, 0) == Ok(v) && HlCount(op, 0) == 1 && CarryIn(s.regs, op) && y == v + 1
    ensures StepDefined(rev, s)
    ensures Step(rev, s) == Effect(Ok(()), Machine(SubFromA(s.regs.(pc := 1), y), s.mem, s.clock.Inc(2)))
  {
    StepSub(rev, s, op, s.regs.(pc := 1), 2, y);
  }

  /** The register operand of ADD A,B and SUB A,C. */
  lemma RegisterOperand(s: Machine, op: u8)
    requires s.mem.Valid() && (op == 0x80 || op == 0x91)
    ensures SourceValue(s, op, 0) == Ok(if op == 0x80 then s.regs.b else s.regs.c)
    ensures HlCount(op, 0) == 0 && !CarryIn(s.regs, op)
  {
    OpcodeFields();
  }

  /** An ADD-group opcode at address 0 with a register operand and no
      carry: A plus the register, one M-cycle. */
  lemma AddRegisterEffect(rev: Revision, s: Machine, op: u8, v: u8)
    requires s.mem.Valid() && s.regs.pc == 0 && FetchByte(s.mem, 0) == op
    requires Decode(rev, op) == AddGroup && !AddImmediate(op)
    requires SourceValue(s, op, 0) == Ok(v) && HlCount(op, 0) == 0 && !CarryIn(s.regs, op)
    ensures StepDefined(rev, s)
    ensures Step(rev, s) == Effect(Ok(()), Machine(AddToA(s.regs.(pc := 1), v), s.mem, s.clock.Inc(1)))
  {
    StepAdd(rev, s, op, s.regs.(pc := 1), 1, v);
  }

  /** A SUB-group opcode at address 0 with a register operand and no
      carry: A minus the register, one M-cycle. */
  lemma SubRegisterEffect(rev: Revision, s: Machine, op: u8, v: u8)
    requires s.mem.Valid() && s.regs.pc == 0 && FetchByte(s.mem, 0) == op
    requires Decode(rev, op) == SubGroup && !SubImmediate(op)
    requires SourceValue(s, op, 0) == Ok(v) && HlCount(op, 0) == 0 && !CarryIn(s.regs, op)
    ensures StepDefined(rev, s)
    ensures Step(rev, s) == Effect(Ok(()), Machine(SubFromA(s.regs.(pc := 1), v), s.mem, s.clock.Inc(1)))
  {
    StepSub(rev, s, op, s.regs.(pc := 1), 1, v);
  }

  /** What an arithmetic step at address 0 leaves behind: memory as it was,
      `cycles` M-cycles, PC at 1, A and the four flags as given. */
  predicate ArithOutcome(e: Effect<()>, s: Machine, cycles: nat, a: u8, z: bool, n: bool, hc: bool, cy: bool) {
    e.result == Ok(()) && e.post.mem == s.mem && e.post.clock == s.clock.Inc(cycles) &&
    e.post.regs.pc == 1 && e.post.regs.a == a && FlagsAre(e.post.regs, s.regs, z, n, hc, cy)
  }

  /** An ADD-group opcode at address 0 whose carry is added, read off as A
      and flags. */
  lemma AddWithCarryOutcome(rev: Revision, s: Machine, op: u8, v: u8, y: u8, a: u8, z: bool, hc: bool, cy: bool)
    requires s.mem.Valid() && s.regs.pc == 0 && FetchByte(s.mem, 0) == op
    requires Decode(rev, op) == AddGroup && !AddImmediate(op)
    requires SourceValue(s, op, 0) == Ok(v) && HlCount(op, 0) == 1 && CarryIn(s.regs, op) && y == v + 1
    requires a == (s.regs.a + y) % 256 && z == (a == 0)
    requires hc == (s.regs.a % 16 + y % 16 > 15) && cy == (s.regs.a + y > 255)
    ensures StepDefined(rev, s) && ArithOutcome(Step(rev, s), s, 2, a, z, false, hc, cy)
  {
    AddWithCarryEffect(rev, s, op, v, y);
    var e := Effect(Ok(()), Machine(AddToA(s.regs.(pc := 1), y), s.mem, s.clock.Inc(2)));
    AddOutcome(e, s, y, 2, a, z, false, hc, cy);
    assert ArithOutcome(e, s, 2, a, z, false, hc, cy);
  }

  /** A SUB-group opcode at address 0 whose carry is subtracted, read off
      as A and flags. */
  lemma SubWithCarryOutcome(rev: Revision, s: Machine, op: u8, v: u8, y: u8, a: u8, z: bool, hc: bool, cy: bool)
    requires s.mem.Valid() && s.regs.pc == 0 && FetchByte(s.mem, 0) == op
    requires Decode(rev, op) == SubGroup && !SubImmediate(op)
    requires SourceValue(s, op, 0) == Ok(v) && HlCount(op, 0) == 1 && CarryIn(s.regs, op) && y == v + 1
    requires a == (s.regs.a - y) % 256 && z == (a == 0)
    requires hc == (s.regs.a % 16 < y % 16) && cy == (s.regs.a < y)
    ensures StepDefined(rev, s) && ArithOutcome(Step(rev, s), s, 2, a, z, true, hc, cy)
  {
    SubWithCarryEffect(rev, s, op, v, y);
    var e := Effect(Ok(()), Machine(SubFromA(s.regs.(pc := 1), y), s.mem, s.clock.Inc(2)));
    SubOutcome(e, s, y, 2, a, z, true, hc, cy);
    assert ArithOutcome(e, s, 2, a, z, true, hc, cy);
  }

  /** An ADD-group opcode at address 0 with a register operand and no
      carry, read off as A and flags. */
  lemma AddRegisterOutcome(rev: Revision, s: Machine, op: u8, v: u8, a: u8, z: bool, hc: bool, cy: bool)
    requires s.mem.Valid() && s.regs.pc == 0 && FetchByte(s.mem, 0) == op
    requires Decode(rev, op) == AddGroup && !AddImmediate(op)
    requires SourceValue(s, op, 0) == Ok(v) && HlCount(op, 0) == 0 && !CarryIn(s.regs, op)
    requires a == (s.regs.a + v) % 256 && z == (a == 0)
    requires hc == (s.regs.a % 16 + v % 16 > 15) && cy == (s.regs.a + v > 255)
    ensures StepDefined(rev, s) && ArithOutcome(Step(rev, s), s, 1, a, z, false, hc, cy)
  {
    AddRegisterEffect(rev, s, op, v);
    var e := Effect(Ok(()), Machine(AddToA(s.regs.(pc := 1), v), s.mem, s.clock.Inc(1)));
    AddOutcome(e, s, v, 1, a, z, false, hc, cy);
    assert ArithOutcome(e, s, 1, a, z, false, hc, cy);
  }

  /** A SUB-group opcode at address 0 with a register operand and no
      carry, read off as A and flags. */
  lemma SubRegisterOutcome(rev: Revision, s: Machine, op: u8, v: u8, a: u8, z: bool, hc: bool, cy: bool)
    requires s.mem.Valid() && s.regs.pc == 0 && FetchByte(s.mem, 0) == op
    requires Decode(rev, op) == SubGroup && !SubImmediate(op)
    requires SourceValue(s, op, 0) == Ok(v) && HlCount(op, 0) == 0 && !CarryIn(s.regs, op)
    requires a == (s.regs.a - v) % 256 && z == (a == 0)
    requires hc == (s.regs.a % 16 < v % 16) && cy == (s.regs.a < v)
    ensures StepDefined(rev, s) && ArithOutcome(Step(rev, s), s, 1, a, z, true, hc, cy)
  {
    SubRegisterEffect(rev, s, op, v);
    var e := Effect(Ok(()), Machine(SubFromA(s.regs.(pc := 1), v), s.mem, s.clock.Inc(1)));
    SubOutcome(e, s, v, 1, a, z, true, hc, cy);
    assert ArithOutcome(e, s, 1, a, z, true, hc, cy);
  }

  /** ADD A,B with A = 172, B = 108: A = 24 with C and H set, Z and N clear,
      in one M-cycle. */
  lemma AddABStep(rev: Revision, s: Machine)
    requires rev != Earliest && s.mem.Valid() && ProgramOf2(s, 0x80, 0xDD)
    requires s.regs.a == 172 && s.regs.b == 108
    ensures var e := Step(rev, s);
      StepDefined(rev, s) && e.result == Ok(()) && e.post.mem == s.mem &&
      e.post.clock == s.clock.Inc(1) && e.post.regs.pc == 1 && e.post.regs.a == 24 &&
      FlagsAre(e.post.regs, s.regs, false, false, true, true)
  {
    RegisterOperand(s, 0x80);
    DecodeAluBlock(rev, 0x80);
    assert AluKind(0) == AddGroup;
    AddRegisterOutcome(rev, s, 0x80, s.regs.b, 24, false, true, true);
  }

  /** ADD A,B with A = 172, B = 108 followed by an illegal opcode: two
      M-cycles in all, and the run halts on the second byte
      (tests/arithmetic_tests.rs:22-35, src/cpu/alu/tests.rs:22-35). */
  lemma AddABExample(rev: Revision, s: Machine)
    requires rev != Earliest && s.mem.Valid() && ProgramOf2(s, 0x80, 0xDD)
    requires s.regs.a == 172 && s.regs.b == 108
    ensures var o := Run(rev, s, 2);
      o.stop == Halted(IllegalOpcode(0xDD)) && o.post.regs.pc == 2 &&
      o.post.clock == s.clock.Inc(2) && o.post.regs.a == 24 &&
      FlagsAre(o.post.regs, s.regs, false, false, true, true)
  {
    AddABStep(rev, s);
    var p := Step(rev, s).post;
    RunThenIllegal(rev, s, p);
    FlagsCarry(p.regs, s.regs, p.regs.(pc := 2), s.regs, false, false, true, true, false, false, true, true);
    IncAdds(s.clock, 1, 1);
  }

  /** ADD A,B with A = B = 0 sets Z only. */
  lemma AddABZeroStep(rev: Revision, s: Machine)
    requires rev != Earliest && s.mem.Valid() && ProgramOf2(s, 0x80, 0xDD)
    requires s.regs.a == 0 && s.regs.b == 0
    ensures var e := Step(rev, s);
      StepDefined(rev, s) && e.result == Ok(()) && e.post.mem == s.mem &&
      e.post.clock == s.clock.Inc(1) && e.post.regs.pc == 1 && e.post.regs.a == 0 &&
      FlagsAre(e.post.regs, s.regs, true, false, false, false)
  {
    RegisterOperand(s, 0x80);
    DecodeAluBlock(rev, 0x80);
    assert AluKind(0) == AddGroup;
    AddRegisterOutcome(rev, s, 0x80, s.regs.b, 0, true, false, false);
  }

  /** The second half of the same test as a run. */
  lemma AddABZeroExample(rev: Revision, s: Machine)
    requires rev != Earliest && s.mem.Valid() && ProgramOf2(s, 0x80, 0xDD)
    requires s.regs.a == 0 && s.regs.b == 0
    ensures var o := Run(rev, s, 2);
      o.stop == Halted(IllegalOpcode(0xDD)) && o.post.regs.pc == 2 &&
      o.post.clock == s.clock.Inc(2) && o.post.regs.a == 0 &&
      FlagsAre(o.post.regs, s.regs, true, false, false, false)
  {
    AddABZeroStep(rev, s);
    var p := Step(rev, s).post;
    RunThenIllegal(rev, s, p);
    FlagsCarry(p.regs, s.regs, p.regs.(pc := 2), s.regs, true, false, false, false, true, false, false, false);
    IncAdds(s.clock, 1, 1);
  }

  /** ADC A,[HL] with A = 172, [HL] = 108 and the carry set: A = 25 with C
      and H set, Z and N clear; the [HL] operand costs one M-cycle. */
  lemma AdcAHlStep(rev: Revision, s: Machine)
    requires rev != Earliest && s.mem.Valid() && ProgramOf2(s, 0x8E, 0xDD)
    requires s.regs.a == 172 && s.regs.h == 0xC0 && s.regs.l == 0x01 && s.regs.ReadFlag(Carry)
    requires MemRead(s.mem, 0xC001) == Ok(108)
    ensures var e := Step(rev, s);
      StepDefined(rev, s) && e.result == Ok(()) && e.post.mem == s.mem &&
      e.post.clock == s.clock.Inc(2) && e.post.regs.pc == 1 && e.post.regs.a == 25 &&
      FlagsAre(e.post.regs, s.regs, false, false, true, true)
  {
    ExampleArithmetic(s.regs.a, 109);
    HlOperandAtC001(s, 0x8E);
    DecodeAluBlock(rev, 0x8E);
    assert AluKind(1) == AddGroup;
    AddWithCarryOutcome(rev, s, 0x8E, 108, 109, 25, false, true, true);
  }

  /** ADC A,[HL] as a run: three M-cycles with the trailing fetch
      (src/cpu/alu/tests.rs:47-60; tests/arithmetic_tests.rs:47-60 counts
      one more for its own ticking setup write). */
  lemma AdcAHlExample(rev: Revision, s: Machine)
    requires rev != Earliest && s.mem.Valid() && ProgramOf2(s, 0x8E, 0xDD)
    requires s.regs.a == 172 && s.regs.h == 0xC0 && s.regs.l == 0x01 && s.regs.ReadFlag(Carry)
    requires MemRead(s.mem, 0xC001) == Ok(108)
    ensures var o := Run(rev, s, 2);
      o.stop == Halted(IllegalOpcode(0xDD)) && o.post.regs.pc == 2 &&
      o.post.clock == s.clock.Inc(3) && o.post.regs.a == 25 &&
      FlagsAre(o.post.regs, s.regs, false, false, true, true)
  {
    AdcAHlStep(rev, s);
    var p := Step(rev, s).post;
    RunThenIllegal(rev, s, p);
    FlagsCarry(p.regs, s.regs, p.regs.(pc := 2), s.regs, false, false, true, true, false, false, true, true);
    IncAdds(s.clock, 2, 1);
  }

  /** ADC A,[HL] with A = 255, [HL] = 0 and the carry set wraps to 0 with
      Z, H and C set. */
  lemma AdcAHlWrapStep(rev: Revision, s: Machine)
    requires rev != Earliest && s.mem.Valid() && ProgramOf2(s, 0x8E, 0xDD)
    requires s.regs.a == 255 && s.regs.h == 0xC0 && s.regs.l == 0x01 && s.regs.ReadFlag(Carry)
    requires MemRead(s.mem, 0xC001) == Ok(0)
    ensures var e := Step(rev, s);
      StepDefined(rev, s) && e.result == Ok(()) && e.post.mem == s.mem &&
      e.post.clock == s.clock.Inc(2) && e.post.regs.pc == 1 && e.post.regs.a == 0 &&
      FlagsAre(e.post.regs, s.regs, true, false, true, true)
  {
    ExampleArithmetic(s.regs.a, 1);
    HlOperandAtC001(s, 0x8E);
    DecodeAluBlock(rev, 0x8E);
    assert AluKind(1) == AddGroup;
    AddWithCarryOutcome(rev, s, 0x8E, 0, 1, 0, true, true, true);
  }

  /** The second half of the same test as a run. */
  lemma AdcAHlWrapExample(rev: Revision, s: Machine)
    requires rev != Earliest && s.mem.Valid() && ProgramOf2(s, 0x8E, 0xDD)
    requires s.regs.a == 255 && s.regs.h == 0xC0 && s.regs.l == 0x01 && s.regs.ReadFlag(Carry)
    requires MemRead(s.mem, 0xC001) == Ok(0)
    ensures var o := Run(rev, s, 2);
      o.stop == Halted(IllegalOpcode(0xDD)) && o.post.regs.pc == 2 &&
      o.post.clock == s.clock.Inc(3) && o.post.regs.a == 0 &&
      FlagsAre(o.post.regs, s.regs, true, false, true, true)
  {
    AdcAHlWrapStep(rev, s);
    var p := Step(rev, s).post;
    RunThenIllegal(rev, s, p);
    FlagsCarry(p.regs, s.regs, p.regs.(pc := 2), s.regs, true, false, true, true, true, false, true, true);
    IncAdds(s.clock, 2, 1);
  }

  /** SUB A,C with A = 64, C = 108: A = 212 with C, H and N set. */
  lemma SubACStep(rev: Revision, s: Machine)
    requires rev != Earliest && s.mem.Valid() && ProgramOf2(s, 0x91, 0xDD)
    requires s.regs.a == 64 && s.regs.c == 108
    ensures var e := Step(rev, s);
      StepDefined(rev, s) && e.result == Ok(()) && e.post.mem == s.mem &&
      e.post.clock == s.clock.Inc(1) && e.post.regs.pc == 1 && e.post.regs.a == 212 &&
      FlagsAre(e.post.regs, s.regs, false, true, true, true)
  {
    RegisterOperand(s, 0x91);
    DecodeAluBlock(rev, 0x91);
    assert AluKind(2) == SubGroup;
    SubRegisterOutcome(rev, s, 0x91, s.regs.c, 212, false, true, true);
  }

  /** SUB A,C as a run (tests/arithmetic_tests.rs:74-85). */
  lemma SubACExample(rev: Revision, s: Machine)
    requires rev != Earliest && s.mem.Valid() && ProgramOf2(s, 0x91, 0xDD)
    requires s.regs.a == 64 && s.regs.c == 108
    ensures var o := Run(rev, s, 2);
      o.stop == Halted(IllegalOpcode(0xDD)) && o.post.regs.pc == 2 &&
      o.post.clock == s.clock.Inc(2) && o.post.regs.a == 212 &&
      FlagsAre(o.post.regs, s.regs, false, true, true, true)
  {
    SubACStep(rev, s);
    var p := Step(rev, s).post;
    RunThenIllegal(rev, s, p);
    FlagsCarry(p.regs, s.regs, p.regs.(pc := 2), s.regs, false, true, true, true, false, true, true, true);
    IncAdds(s.clock, 1, 1);
  }

  /** SUB A,C with A = C = 0 sets Z and N only. */
  lemma SubACZeroStep(rev: Revision, s: Machine)
    requires rev != Earliest && s.mem.Valid() && ProgramOf2(s, 0x91, 0xDD)
    requires s.regs.a == 0 && s.regs.c == 0
    ensures var e := Step(rev, s);
      StepDefined(rev, s) && e.result == Ok(()) && e.post.mem == s.mem &&
      e.post.clock == s.clock.Inc(1) && e.post.regs.pc == 1 && e.post.regs.a == 0 &&
      FlagsAre(e.post.regs, s.regs, true, true, false, false)
  {
    RegisterOperand(s, 0x91);
    DecodeAluBlock(rev, 0x91);
    assert AluKind(2) == SubGroup;
    SubRegisterOutcome(rev, s, 0x91, s.regs.c, 0, true, false, false);
  }

  /** The second half of the same test as a run. */
  lemma SubACZeroExample(rev: Revision, s: Machine)
    requires rev != Earliest && s.mem.Valid() && ProgramOf2(s, 0x91, 0xDD)
    requires s.regs.a == 0 && s.regs.c == 0
    ensures var o := Run(rev, s, 2);
      o.stop == Halted(IllegalOpcode(0xDD)) && o.post.regs.pc == 2 &&
      o.post.clock == s.clock.Inc(2) && o.post.regs.a == 0 &&
      FlagsAre(o.post.regs, s.regs, true, true, false, false)
  {
    SubACZeroStep(rev, s);
    var p := Step(rev, s).post;
    RunThenIllegal(rev, s, p);
    FlagsCarry(p.regs, s.regs, p.regs.(pc := 2), s.regs, true, true, false, false, true, true, false, false);
    IncAdds(s.clock, 1, 1);
  }

  /** SBC A,[HL] with A = 64, [HL] = 108 and the carry set: 64 - 109 wraps
      to 211 with C, H and N set. */
  lemma SbcAHlStep(rev: Revision, s: Machine)
    requires rev != Earliest && s.mem.Valid() && ProgramOf2(s, 0x9E, 0xDD)
    requires s.regs.a == 64 && s.regs.h == 0xC0 && s.regs.l == 0x01 && s.regs.ReadFlag(Carry)
    requires MemRead(s.mem, 0xC001) == Ok(108)
    ensures var e := Step(rev, s);
      StepDefined(rev, s) && e.result == Ok(()) && e.post.mem == s.mem &&
      e.post.clock == s.clock.Inc(2) && e.post.regs.pc == 1 && e.post.regs.a == 211 &&
      FlagsAre(e.post.regs, s.regs, false, true, true, true)
  {
    ExampleArithmetic(s.regs.a, 109);
    HlOperandAtC001(s, 0x9E);
    DecodeAluBlock(rev, 0x9E);
    assert AluKind(3) == SubGroup;
    SubWithCarryOutcome(rev, s, 0x9E, 108, 109, 211, false, true, true);
  }

  /** SBC A,[HL] as a run: three M-cycles
      (tests/arithmetic_tests.rs:99-112 counts one more for its setup write). */
  lemma SbcAHlExample(rev: Revision, s: Machine)
    requires rev != Earliest && s.mem.Valid() && ProgramOf2(s, 0x9E, 0xDD)
    requires s.regs.a == 64 && s.regs.h == 0xC0 && s.regs.l == 0x01 && s.regs.ReadFlag(Carry)
    requires MemRead(s.mem, 0xC001) == Ok(108)
    ensures var o := Run(rev, s, 2);
      o.stop == Halted(IllegalOpcode(0xDD)) && o.post.regs.pc == 2 &&
      o.post.clock == s.clock.Inc(3) && o.post.regs.a == 211 &&
      FlagsAre(o.post.regs, s.regs, false, true, true, true)
  {
    SbcAHlStep(rev, s);
    var p := Step(rev, s).post;
    RunThenIllegal(rev, s, p);
    FlagsCarry(p.regs, s.regs, p.regs.(pc := 2), s.regs, false, true, true, true, false, true, true, true);
    IncAdds(s.clock, 2, 1);
  }

  /** SBC A,[HL] with A = 1, [HL] = 0 and the carry set gives 0 with Z and
      N set, H and C clear. */
  lemma SbcAHlZeroStep(rev: Revision, s: Machine)
    requires rev != Earliest && s.mem.Valid() && ProgramOf2(s, 0x9E, 0xDD)
    requires s.regs.a == 1 && s.regs.h == 0xC0 && s.regs.l == 0x01 && s.regs.ReadFlag(Carry)
    requires MemRead(s.mem, 0xC001) == Ok(0)
    ensures var e := Step(rev, s);
      StepDefined(rev, s) && e.result == Ok(()) && e.post.mem == s.mem &&
      e.post.clock == s.clock.Inc(2) && e.post.regs.pc == 1 && e.post.regs.a == 0 &&
      FlagsAre(e.post.regs, s.regs, true, true, false, false)
  {
    ExampleArithmetic(s.regs.a, 1);
    HlOperandAtC001(s, 0x9E);
    DecodeAluBlock(rev, 0x9E);
    assert AluKind(3) == SubGroup;
    SubWithCarryOutcome(rev, s, 0x9E, 0, 1, 0, true, false, false);
  }

  /** The second half of the same test as a run. */
  lemma SbcAHlZeroExample(rev: Revision, s: Machine)
    requires rev != Earliest && s.mem.Valid() && ProgramOf2(s, 0x9E, 0xDD)
    requires s.regs.a == 1 && s.regs.h == 0xC0 && s.regs.l == 0x01 && s.regs.ReadFlag(Carry)
    requires MemRead(s.mem, 0xC001) == Ok(0)
    ensures var o := Run(rev, s, 2);
      o.stop == Halted(IllegalOpcode(0xDD)) && o.post.regs.pc == 2 &&
      o.post.clock == s.clock.Inc(3) && o.post.regs.a == 0 &&
      FlagsAre(o.post.regs, s.regs, true, true, false, false)
  {
    SbcAHlZeroStep(rev, s);
    var p := Step(rev, s).post;
    RunThenIllegal(rev, s, p);
    FlagsCarry(p.regs, s.regs, p.regs.(pc := 2), s.regs, true, true, false, false, true, true, false, false);
    IncAdds(s.clock, 2, 1);
  }

  /** INC/DEC B at address 0 as a machine: B replaced by its successor or
      predecessor, flags from the old value, one M-cycle. */
  lemma IncDecBEffect(s: Machine, op: u8, delta: int, v: u8, res: u8)
    requires s.mem.Valid() && s.regs.pc == 0 && FetchByte(s.mem, 0) == op
    requires Decode(Latest, op) == IncDecGroup(delta) && Field(op, 3, 3) == 0
    requires s.regs.b == v && res == IncResult(v, delta)
    ensures StepDefined(Latest, s)
    ensures Step(Latest, s) == Effect(Ok(()), Machine(IncFlags(s.regs.(pc := 1, b := res), res, v, delta), s.mem, s.clock.Inc(1)))
  {
    var post := s.regs.(pc := s.regs.pc + 1);
    assert post.SetR8(0, res) == Ok(s.regs.(pc := 1, b := res));
    StepIncDecRegister(s, delta, v, res, s.regs.(pc := 1, b := res));
  }

  /** INC B on 255 wraps to 0 with Z and H set, N clear, the carry kept,
      in one M-cycle. */
  lemma IncBStep(s: Machine)
    requires s.mem.Valid() && ProgramOf2(s, 0x04, 0xDD) && s.regs.b == 255
    ensures var e := Step(Latest, s);
      StepDefined(Latest, s) && e.result == Ok(()) && e.post.mem == s.mem &&
      e.post.clock == s.clock.Inc(1) && e.post.regs.pc == 1 && e.post.regs.b == 0 &&
      FlagsAre(e.post.regs, s.regs, true, false, true, s.regs.ReadFlag(Carry))
  {
    OpcodeFields();
    DecodeIncDec(Latest, 0x04);
    IncResultEffect(255, 1);
    IncDecBEffect(s, 0x04, 1, 255, 0);
    var regs := s.regs.(pc := 1, b := 0);
    var e := Effect(Ok(()), Machine(IncFlags(regs, 0, 255, 1), s.mem, s.clock.Inc(1)));
    IncOutcome(e, s, regs, s.mem, 1, 255, 1, 0, true, false, true);
  }

  /** INC B as a run (tests/arithmetic_tests.rs:126-136). */
  lemma IncBExample(s: Machine)
    requires s.mem.Valid() && ProgramOf2(s, 0x04, 0xDD) && s.regs.b == 255
    ensures var o := Run(Latest, s, 2);
      o.stop == Halted(IllegalOpcode(0xDD)) && o.post.clock == s.clock.Inc(2) && o.post.regs.b == 0 &&
      FlagsAre(o.post.regs, s.regs, true, false, true, s.regs.ReadFlag(Carry))
  {
    IncBStep(s);
    var p := Step(Latest, s).post;
    RunThenIllegal(Latest, s, p);
    var c := s.regs.ReadFlag(Carry);
    FlagsCarry(p.regs, s.regs, p.regs.(pc := 2), s.regs, true, false, true, c, true, false, true, c);
    IncAdds(s.clock, 1, 1);
  }

  /** INC/DEC [HL] at address 0 as a machine: the byte at HL replaced by
      its successor or predecessor, flags from the old byte, four M-cycles. */
  lemma IncDecHlEffect(s: Machine, op: u8, delta: int, v: u8, res: u8)
    requires s.mem.Valid() && s.regs.pc == 0 && FetchByte(s.mem, 0) == op
    requires Decode(Latest, op) == IncDecGroup(delta) && Field(op, 3, 3) == 6
    requires MemRead(s.mem, s.regs.HL()) == Ok(v) && res == IncResult(v, delta)
    requires MemWrite(s.mem, s.regs.HL(), res).0.Ok?
    ensures StepDefined(Latest, s)
    ensures Step(Latest, s) == Effect(Ok(()), Machine(IncFlags(s.regs.(pc := 1), res, v, delta),
                                                      MemWrite(s.mem, s.regs.HL(), res).1, s.clock.Inc(4)))
  {
    var post := s.regs.(pc := s.regs.pc + 1);
    assert post == s.regs.(pc := 1);
    StepIncDecHl(s, delta, v, res, MemWrite(s.mem, s.regs.HL(), res).1);
  }

  /** INC/DEC [HL] at address 0, read off as the byte written and flags. */
  lemma IncDecHlOutcome(s: Machine, op: u8, delta: int, v: u8, res: u8, z: bool, hc: bool)
    requires s.mem.Valid() && s.regs.pc == 0 && FetchByte(s.mem, 0) == op
    requires Decode(Latest, op) == IncDecGroup(delta) && Field(op, 3, 3) == 6
    requires MemRead(s.mem, s.regs.HL()) == Ok(v) && res == IncResult(v, delta)
    requires MemWrite(s.mem, s.regs.HL(), res).0.Ok?
    requires delta == 1 || delta == -1
    requires res == (v + delta) % 256 && z == (res == 0)
    requires hc == (if delta == 1 then v % 16 == 15 else v % 16 == 0)
    ensures var e := Step(Latest, s);
      StepDefined(Latest, s) && e.result == Ok(()) && e.post.mem == MemWrite(s.mem, s.regs.HL(), res).1 &&
      e.post.clock == s.clock.Inc(4) && e.post.regs.pc == 1 &&
      FlagsAre(e.post.regs, s.regs, z, delta < 0, hc, s.regs.ReadFlag(Carry))
  {
    IncDecHlEffect(s, op, delta, v, res);
    var mem := MemWrite(s.mem, s.regs.HL(), res).1;
    var e := Effect(Ok(()), Machine(IncFlags(s.regs.(pc := 1), res, v, delta), mem, s.clock.Inc(4)));
    IncOutcome(e, s, s.regs.(pc := 1), mem, 4, v, delta, res, z, delta < 0, hc);
  }

  /** A write to the readable byte at 0xC001 succeeds, reads back, and
      leaves the program byte at address 1 alone. */
  lemma WriteC001(m: Mem, before: u8, value: u8)
    requires m.Valid() && MemRead(m, 0xC001) == Ok(before)
    ensures MemWrite(m, 0xC001, value).0.Ok?
    ensures var m' := MemWrite(m, 0xC001, value).1;
      m'.Valid() && MemRead(m', 0xC001) == Ok(value) && FetchByte(m', 1) == FetchByte(m, 1)
  {
    WritableWhereReadable(m, 0xC001, value);
    WriteKeepsShape(m, 0xC001, value, 1);
    ReadAfterWrite(m, 0xC001, value);
    WriteChangesOneCell(m, 0xC001, value, 1);
  }

  /** DEC [HL] on 0 writes 255 back with H and N set and Z clear; the
      operand read costs one M-cycle and the write two more. */
  lemma DecHlStep(s: Machine)
    requires s.mem.Valid() && ProgramOf2(s, 0x35, 0xDD)
    requires s.regs.h == 0xC0 && s.regs.l == 0x01 && MemRead(s.mem, 0xC001) == Ok(0)
    ensures var e := Step(Latest, s);
      StepDefined(Latest, s) && e.result == Ok(()) && e.post.mem.Valid() &&
      MemRead(e.post.mem, 0xC001) == Ok(255) && FetchByte(e.post.mem, 1) == 0xDD &&
      e.post.clock == s.clock.Inc(4) && e.post.regs.pc == 1 &&
      FlagsAre(e.post.regs, s.regs, false, true, true, s.regs.ReadFlag(Carry))
  {
    assert s.regs.HL() == 0xC001;
    WriteC001(s.mem, 0, 255);
    OpcodeFields();
    DecodeIncDec(Latest, 0x35);
    IncResultEffect(0, -1);
    IncDecHlOutcome(s, 0x35, -1, 0, 255, false, true);
  }

  /** DEC [HL] as a run: five M-cycles (tests/arithmetic_tests.rs:138-150). */
  lemma DecHlExample(s: Machine)
    requires s.mem.Valid() && ProgramOf2(s, 0x35, 0xDD)
    requires s.regs.h == 0xC0 && s.regs.l == 0x01 && MemRead(s.mem, 0xC001) == Ok(0)
    ensures var o := Run(Latest, s, 2);
      o.stop == Halted(IllegalOpcode(0xDD)) && o.post.clock == s.clock.Inc(5) &&
      MemRead(o.post.mem, 0xC001) == Ok(255) &&
      FlagsAre(o.post.regs, s.regs, false, true, true, s.regs.ReadFlag(Carry))
  {
    DecHlStep(s);
    var p := Step(Latest, s).post;
    RunThenIllegal(Latest, s, p);
    var c := s.regs.ReadFlag(Carry);
    FlagsCarry(p.regs, s.regs, p.regs.(pc := 2), s.regs, false, true, true, c, false, true, true, c);
    IncAdds(s.clock, 4, 1);
  }

  /** LD B,L copies L into B and costs only its fetch: two M-cycles with the
      trailing one (tests/load_tests.rs:22-29, src/cpu/clu/tests.rs:22-29). */
  lemma LdBLExample(rev: Revision, s: Machine)
    requires rev != Earliest && s.mem.Valid() && ProgramOf2(s, 0x45, 0xDD)
    ensures var o := Run(rev, s, 2);
      o.stop == Halted(IllegalOpcode(0xDD)) && o.post.clock == s.clock.Inc(2) &&
      o.post.regs == s.regs.(b := s.regs.l, pc := 2) && o.post.mem == s.mem
  {
    OpcodeFields();
    StepLoad(rev, s, s.regs.l, s.regs.(pc := 1, b := s.regs.l), s.mem);
    var p := Machine(s.regs.(pc := 1, b := s.regs.l), s.mem, s.clock.Inc(1));
    RunThenIllegal(rev, s, p);
  }

  /** LD B,[HL] loads the byte at HL into B; the memory operand costs one
      M-cycle, three in all (src/cpu/clu/tests.rs:31-45; tests/load_tests.rs:31-49
      counts one more for the setup write and one for its own read). */
  lemma LdBHlExample(rev: Revision, s: Machine)
    requires rev != Earliest && s.mem.Valid() && ProgramOf2(s, 0x46, 0xDD)
    requires s.regs.h == 0xC0 && s.regs.l == 0x01 && MemRead(s.mem, 0xC001) == Ok(0xB1)
    ensures var o := Run(rev, s, 2);
      o.stop == Halted(IllegalOpcode(0xDD)) && o.post.clock == s.clock.Inc(3) &&
      o.post.regs == s.regs.(b := 0xB1, pc := 2) && o.post.mem == s.mem
  {
    OpcodeFields();
    assert s.regs.HL() == 0xC001 && HlCount(0x46, 0) == 1 && HlCount(0x46, 3) == 0;
    StepLoad(rev, s, 0xB1, s.regs.(pc := 1, b := 0xB1), s.mem);
    var p := Machine(s.regs.(pc := 1, b := 0xB1), s.mem, s.clock.Inc(2));
    RunThenIllegal(rev, s, p);
  }

  /** LD [HL],A stores A at HL; the memory operand costs one M-cycle, three
      in all (src/cpu/clu/tests.rs:47-61; tests/load_tests.rs:51-69 counts one
      more for its own read). */
  lemma LdHlAExample(rev: Revision, s: Machine)
    requires rev != Earliest && s.mem.Valid() && ProgramOf2(s, 0x77, 0xDD)
    requires s.regs.a == 0xB1 && s.regs.h == 0xC0 && s.regs.l == 0x01 && MemRead(s.mem, 0xC001).Ok?
    ensures var o := Run(rev, s, 2);
      o.stop == Halted(IllegalOpcode(0xDD)) && o.post.clock == s.clock.Inc(3) &&
      o.post.regs == s.regs.(pc := 2) && MemRead(o.post.mem, 0xC001) == Ok(0xB1)
  {
    OpcodeFields();
    WritableWhereReadable(s.mem, 0xC001, 0xB1);
    ReadAfterWrite(s.mem, 0xC001, 0xB1);
    WriteChangesOneCell(s.mem, 0xC001, 0xB1, 1);
    assert s.regs.HL() == 0xC001 && SourceValue(s, 0x77, 0) == Ok(0xB1);
    assert HlCount(0x77, 0) == 0 && HlCount(0x77, 3) == 1;
    StepLoad(rev, s, 0xB1, s.regs.(pc := 1), MemWrite(s.mem, 0xC001, 0xB1).1);
    var p := Machine(s.regs.(pc := 1), MemWrite(s.mem, 0xC001, 0xB1).1, s.clock.Inc(2));
    RunThenIllegal(rev, s, p);
  }

  /** JP 0x0004 from address 0 lands on the 0xDD at 4: PC = 5 and five
      M-cycles (tests/jump_tests.rs:21-28, src/cpu/clu/tests.rs:63-70). */
  lemma JpExample(rev: Revision, s: Machine)
    requires rev != Earliest && s.mem.Valid() && ProgramOf5(s, 0xC3, 0x04, 0x00, 0xDD, 0xDD)
    ensures var o := Run(rev, s, 2);
      o.stop == Halted(IllegalOpcode(0xDD)) && o.post.regs.pc == 5 && o.post.clock == s.clock.Inc(5)
  {
    StepJumpAbsolute(rev, s);
    var p := Machine(s.regs.(pc := 4), s.mem, s.clock.Inc(4));
    RunThenIllegal(rev, s, p);
  }

  /** JP NZ,0x0004 jumps when Z is clear (PC = 5, five M-cycles) and falls
      through to the 0xDD at 3 when Z is set (PC = 4, four M-cycles)
      (tests/jump_tests.rs:30-48). */
  lemma JpNzExample(rev: Revision, s: Machine)
    requires rev != Earliest && s.mem.Valid() && ProgramOf5(s, 0xC2, 0x04, 0x00, 0xDD, 0xDD)
    ensures var o := Run(rev, s, 2);
      o.stop == Halted(IllegalOpcode(0xDD)) &&
      o.post.regs.pc == (if s.regs.ReadFlag(Zero) then 4 else 5) &&
      o.post.clock == s.clock.Inc(if s.regs.ReadFlag(Zero) then 4 else 5)
  {
    OpcodeFields();
    ConditionMeaning(s.regs, 0);
    StepJumpAbsolute(rev, s);
    var taken := !s.regs.ReadFlag(Zero);
    var p := Machine(s.regs.(pc := if taken then 4 else 3), s.mem, s.clock.Inc(if taken then 4 else 3));
    RunThenIllegal(rev, s, p);
  }
}
