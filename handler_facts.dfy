/** What each handler does, stated against the machine before it: the
    operand decoders, the loads of all three revisions, the jumps and the
    arithmetic with their flag formulas. */
module HandlerFacts {
  import opened Errors
  import opened Alu
  import opened Registers
  import opened Memory
  import opened Cycles
  import opened Operands
  import opened Semantics

  /** 1 when the r8 field at `index` is [HL], else 0: the M-cycles an
      operand costs beyond the fetch. */
  function HlCount(opcode: u8, index: nat): nat {
    if Field(opcode, index, 3) == 6 then 1 else 0
  }

  /** The value an r8 field denotes in `s`: the byte at HL for field 6,
      else the register. */
  function SourceValue(s: Machine, opcode: u8, index: nat): Result<u8>
    requires s.mem.Valid()
  {
    var field := Field(opcode, index, 3);
    if field == 6 then MemRead(s.mem, s.regs.HL()) else s.regs.MatchR8(field)
  }

  /** The four flags as given, and the low nibble of F as it was before. */
  predicate FlagsAre(out: RegFile, before: RegFile, z: bool, n: bool, hc: bool, cy: bool) {
    out.ReadFlag(Zero) == z && out.ReadFlag(Subtract) == n &&
    out.ReadFlag(HalfCarry) == hc && out.ReadFlag(Carry) == cy &&
    forall k: nat :: k < 4 ==> Bit(out.f, k) == Bit(before.f, k)
  }

  /** An r8 field is below 8, so every field but 6 names a register. */
  lemma R8FieldIsRegister(opcode: u8, index: nat)
    ensures Field(opcode, index, 3) < 8
    ensures Field(opcode, index, 3) != 6 ==> IsRegister(Field(opcode, index, 3))
  {
    TruncateBound(Shr(opcode, index), 3);
    assert Pow2(3) == 8;
  }

  /** set_all_flags as FlagsAre, keeping every register but F. */
  lemma AllFlags(r: RegFile, z: bool, n: bool, hc: bool, cy: bool)
    ensures FlagsAre(r.SetAllFlags(z, n, hc, cy), r, z, n, hc, cy)
    ensures r.SetAllFlags(z, n, hc, cy) == r.(f := r.SetAllFlags(z, n, hc, cy).f)
  {
    SetAllFlagsEffect(r, z, n, hc, cy);
  }

  // ---------------------------------------------------------------------
  // Fetch and operands

  /** fetch returns the byte at PC, or 0 when that read fails, advances PC
      by one and costs one M-cycle; memory is untouched. */
  lemma FetchEffect(s: Machine)
    requires s.mem.Valid() && s.regs.pc < 0xFFFF
    ensures var r := Fetch(s); var read := MemRead(s.mem, s.regs.pc);
      r.result == Ok(if read.Ok? then read.value else 0) &&
      r.post == Machine(s.regs.(pc := s.regs.pc + 1), s.mem, s.clock.Inc(1))
  {
  }

  /** get_r8_param (latest): `n8` fetches; otherwise field 6 is [HL] at the
      current HL and any other field a valid register, with no memory
      access, no tick and PC unchanged. */
  lemma GetR8ParamEffect(s: Machine, n8: bool, opcode: u8, index: nat)
    requires s.mem.Valid() && index <= 5 && (n8 ==> s.regs.pc < 0xFFFF)
    ensures var r := GetR8Param(s, n8, opcode, index); var field := Field(opcode, index, 3);
      (n8 ==> r == Effect(Ok(N8(Fetch(s).result.value)), Fetch(s).post)) &&
      (!n8 ==> r.post == s &&
               r.result.value == (if field == 6 then Hl(s.regs.HL()) else Register(field)) &&
               (field != 6 ==> IsRegister(field)))
  {
    R8FieldIsRegister(opcode, index);
  }

  /** R8::read and R8::write (latest): a register access costs nothing and
      an [HL] access is one ticking memory access; a write to a register
      assigns only it, a write to [HL] is the memory write, a write to an
      immediate does nothing. */
  lemma R8AccessEffect(s: Machine, p: R8, value: u8)
    requires s.mem.Valid()
    ensures var rd := R8Read(s, p); var wr := R8Write(s, p, value);
      rd.post.clock == s.clock.Inc(if p.Hl? then 1 else 0) &&
      wr.post.clock == s.clock.Inc(if p.Hl? then 1 else 0) &&
      (p.Register? ==> rd.result == s.regs.MatchR8(p.index) && wr.post.mem == s.mem &&
                       (wr.result.Ok? <==> IsRegister(p.index)) &&
                       (wr.result.Ok? ==> wr.post.regs == s.regs.SetR8(p.index, value).value)) &&
      (p.Hl? ==> rd.result == MemRead(s.mem, p.addr) && wr.post.regs == s.regs &&
                 (wr.result, wr.post.mem) == MemWrite(s.mem, p.addr, value)) &&
      (p.N8? ==> rd == Effect(Ok(p.byte), s) && wr == Effect(Ok(()), s))
  {
  }

  /** Writing an operand and reading it back yields the value written. */
  lemma R8WriteThenRead(s: Machine, p: R8, value: u8)
    requires s.mem.Valid() && !p.N8? && R8Write(s, p, value).result.Ok?
    ensures R8Read(R8Write(s, p, value).post, p).result == Ok(value)
  {
    match p
    case Register(reg) =>
      SetThenMatch(s.regs, reg, value);
    case Hl(addr) =>
      ReadAfterWrite(s.mem, addr, value);
  }

  /** The add/sub operand: the fetched immediate, or the value the r8 field
      denotes; [HL] costs one tick, a register nothing, and only an [HL]
      read can fail. */
  lemma DirectOperandEffect(s: Machine, opcode: u8, immediate: bool)
    requires s.mem.Valid() && (immediate ==> s.regs.pc < 0xFFFF)
    ensures var o := DirectOperand(s, opcode, immediate);
      o.result == (if immediate then Fetch(s).result else SourceValue(s, opcode, 0)) &&
      o.post == (if immediate then Fetch(s).post else Ticked(s, HlCount(opcode, 0))) &&
      (!immediate && Field(opcode, 0, 3) != 6 ==> o.result.Ok?)
  {
    R8FieldIsRegister(opcode, 0);
    SetThenMatch(s.regs, Field(opcode, 0, 3), 0);
  }

  /** The intermediate value-carrying operand at field 0 agrees with the
      operand block of add and sub: same value, same error, same machine. */
  lemma LoadedParamAgrees(s: Machine, n8: bool, opcode: u8)
    requires s.mem.Valid() && (n8 ==> s.regs.pc < 0xFFFF)
    ensures var p := GetLoadedParam(s, n8, opcode, 0); var o := DirectOperand(s, opcode, n8);
      p.post == o.post && (p.result.Ok? <==> o.result.Ok?) &&
      (p.result.Ok? ==> Loaded(p.result.value) == o.result.value) &&
      (p.result.Err? ==> p.result.error == o.result.error)
  {
  }

  // ---------------------------------------------------------------------
  // Loads

  /** The latest load_from, through R8 with ticking memory accesses, is the
      earliest one with its explicit ticks, result and machine alike. */
  lemma LoadLatestIsEarliest(s: Machine, opcode: u8)
    requires s.mem.Valid()
    ensures LoadFromLatest(s, opcode) == LoadFromEarliest(s, opcode)
  {
  }

  /** The intermediate load_from reads an [HL] destination before writing
      it, which can change which error is reported but never whether the
      load fails, nor the machine it leaves. */
  lemma LoadIntermediateAgrees(s: Machine, opcode: u8)
    requires s.mem.Valid()
    ensures var a := LoadFromIntermediate(s, opcode); var b := LoadFromEarliest(s, opcode);
      a.post == b.post && (a.result.Ok? <==> b.result.Ok?)
  {
    var src := Field(opcode, 0, 3);
    var dst := Field(opcode, 3, 3);
    R8FieldIsRegister(opcode, 0);
    R8FieldIsRegister(opcode, 3);
    SetThenMatch(s.regs, src, 0);
    var read := if src == 6 then ReadMem(Ticked(s, 1), s.regs.HL()) else Effect(s.regs.MatchR8(src), s);
    if read.result.Ok? && dst == 6 {
      var t := Ticked(read.post, 1);
      ReadFailsOnlyPastBufferEnd(t.mem, t.regs.HL());
      WriteKeepsShape(t.mem, t.regs.HL(), read.result.value, t.regs.HL());
    } else if read.result.Ok? {
      SetThenMatch(read.post.regs, dst, read.result.value);
    }
  }

  /** LD in every revision: it succeeds exactly when the source can be read
      and, for an [HL] destination, the memory write succeeds. On success
      the destination holds the source's prior value: memory through the
      map's write for [HL], the register otherwise, with every other
      register (PC included) kept, and one M-cycle per [HL] operand. A
      source that cannot be read stops the load with that error. */
  lemma LoadEffect(rev: Revision, s: Machine, opcode: u8)
    requires s.mem.Valid()
    ensures var r := LoadFrom(rev, s, opcode); var v := SourceValue(s, opcode, 0);
      var dst := Field(opcode, 3, 3); var hl := s.regs.HL();
      (r.result.Ok? <==> v.Ok? && (dst == 6 ==> MemWrite(s.mem, hl, v.value).0.Ok?)) &&
      (v.Err? ==> r.result == Err(v.error)) &&
      (r.result.Ok? ==>
        r.post.clock == s.clock.Inc(HlCount(opcode, 0) + HlCount(opcode, 3)) &&
        (dst == 6 ==> r.post.regs == s.regs && r.post.mem == MemWrite(s.mem, hl, v.value).1) &&
        (dst != 6 ==> r.post.mem == s.mem && r.post.regs == s.regs.SetR8(dst, v.value).value))
  {
    LoadLatestIsEarliest(s, opcode);
    LoadIntermediateAgrees(s, opcode);
    R8FieldIsRegister(opcode, 0);
    R8FieldIsRegister(opcode, 3);
    SetThenMatch(s.regs, Field(opcode, 0, 3), 0);
    SetThenMatch(s.regs, Field(opcode, 3, 3), 0);
    var v := SourceValue(s, opcode, 0);
    if Field(opcode, 0, 3) != 6 {
      assert v.Ok?;
      SetThenMatch(s.regs, Field(opcode, 3, 3), v.value);
    }
    if rev == Intermediate && v.Err? {
      assert GetLoadedParam(s, false, opcode, 0).result == Err(v.error);
    }
  }

  /** After a successful LD the destination reads back the source's prior
      value and every other register is as it was. */
  lemma LoadCopies(rev: Revision, s: Machine, opcode: u8, other: nat)
    requires s.mem.Valid() && LoadFrom(rev, s, opcode).result.Ok?
    ensures var r := LoadFrom(rev, s, opcode); var v := SourceValue(s, opcode, 0).value;
      var dst := Field(opcode, 3, 3);
      (dst == 6 ==> MemRead(r.post.mem, s.regs.HL()) == Ok(v)) &&
      (dst != 6 ==> r.post.regs.MatchR8(dst) == Ok(v)) &&
      (other != dst ==> r.post.regs.MatchR8(other) == s.regs.MatchR8(other)) &&
      r.post.regs.f == s.regs.f && r.post.regs.sp == s.regs.sp && r.post.regs.pc == s.regs.pc
  {
    LoadEffect(rev, s, opcode);
    var v := SourceValue(s, opcode, 0).value;
    var dst := Field(opcode, 3, 3);
    R8FieldIsRegister(opcode, 3);
    if dst == 6 {
      ReadAfterWrite(s.mem, s.regs.HL(), v);
    } else {
      SetThenMatch(s.regs, dst, v);
      if other != dst {
        SetR8Frame(s.regs, dst, v, other);
      }
    }
  }

  // ---------------------------------------------------------------------
  // Jumps

  /** JP/JR are taken when unconditional (0xC3, 0x18) or when the condition
      in bits 4-3 holds. */
  predicate JumpTaken(regs: RegFile, opcode: u8, relative: bool) {
    (if relative then opcode == 0x18 else opcode == 0xC3) ||
    regs.MatchCondition(Field(opcode, 3, 2)) == Ok(true)
  }

  /** The target: for JR, PC before the offset fetch plus the offset byte,
      zero-extended, mod 2^16; for JP, the little-endian immediate. */
  function JumpTarget(s: Machine, relative: bool): u16
    requires s.mem.Valid() && JmpDefined(s, relative)
  {
    if relative then (s.regs.pc + FetchByte(s.mem, s.regs.pc)) % 0x1_0000
    else FetchByte(s.mem, s.regs.pc) + 256 * FetchByte(s.mem, s.regs.pc + 1)
  }

  /** The i16 sum, when it does not overflow, is the unsigned sum mod 2^16. */
  lemma RelTargetIsUnsignedSum(pc: u16, offset: u8)
    requires !RelOverflows(pc, offset)
    ensures RelTarget(pc, offset) == (pc + offset) % 0x1_0000
  {
  }

  /** A jump never fails. Taken, it sets PC to the target and costs one
      M-cycle more than its immediates; not taken, PC rests just past the
      immediates. Flags, the other registers and memory are unchanged. */
  lemma JmpEffect(s: Machine, opcode: u8, relative: bool)
    requires s.mem.Valid() && JmpDefined(s, relative)
    ensures var r := Jmp(s, opcode, relative); var n := if relative then 1 else 2;
      var taken := JumpTaken(s.regs, opcode, relative);
      r.result.Ok? && r.post.mem == s.mem &&
      r.post.regs == s.regs.(pc := if taken then JumpTarget(s, relative) else s.regs.pc + n) &&
      r.post.clock == s.clock.Inc(if taken then n + 1 else n)
  {
    var code := Field(opcode, 3, 2);
    TruncateBound(Shr(opcode, 3), 2);
    assert Pow2(2) == 4;
    ConditionMeaning(s.regs, code);
    var first := Fetch(s);
    assert first.post.regs.MatchCondition(code) == s.regs.MatchCondition(code);
    if !relative {
      var second := Fetch(first.post);
      assert second.post.regs.MatchCondition(code) == s.regs.MatchCondition(code);
    } else {
      RelTargetIsUnsignedSum(s.regs.pc, first.result.value);
    }
  }

  // ---------------------------------------------------------------------
  // Arithmetic

  /** The register update of add: A becomes (A + y) mod 256; Z is
      (result == 0), N clear, H is (A mod 16 + y mod 16 > 15), C is
      (A + y > 255); nothing else changes. */
  lemma AddToAEffect(regs: RegFile, y: u8)
    ensures var out := AddToA(regs, y);
      out.a == (regs.a + y) % 256 && out == regs.(a := out.a, f := out.f) &&
      FlagsAre(out, regs, out.a == 0, false, regs.a % 16 + y % 16 > 15, regs.a + y > 255)
  {
    LowNibbleOfAnd(regs.a);
    LowNibbleOfAnd(y);
    var hc := LowNibble(regs.a) + LowNibble(y) > 0xF;
    var res := (regs.a + y) % 256;
    SetFlagsInAddOrder(regs, hc, regs.a + y > 0xFF, res == 0, false);
    AllFlags(regs, res == 0, false, hc, regs.a + y > 0xFF);
  }

  /** The register update of sub: A becomes (A - y) mod 256; Z is
      (result == 0), N set, H is (A mod 16 < y mod 16), C is (A < y). */
  lemma SubFromAEffect(regs: RegFile, y: u8)
    ensures var out := SubFromA(regs, y);
      out.a == (regs.a - y) % 256 && out == regs.(a := out.a, f := out.f) &&
      FlagsAre(out, regs, out.a == 0, true, regs.a % 16 < y % 16, regs.a < y)
  {
    LowNibbleOfAnd(regs.a);
    LowNibbleOfAnd(y);
    var hc := LowNibble(regs.a) < LowNibble(y);
    var res := (regs.a - y) % 256;
    SetFlagsInAddOrder(regs, hc, regs.a < y, res == 0, true);
    AllFlags(regs, res == 0, true, hc, regs.a < y);
  }

  /** The register update of and / xor / or: A becomes A op y bit by bit;
      flags [Z, 0, 1 for AND else 0, 0]. */
  lemma LogicWithAEffect(regs: RegFile, kind: LogicOp, y: u8)
    ensures var out := LogicWithA(regs, kind, y);
      out.a == ApplyLogic(kind, regs.a, y) && out == regs.(a := out.a, f := out.f) &&
      FlagsAre(out, regs, out.a == 0, false, kind == AndOp, false) &&
      forall k: nat :: Bit(out.a, k) == match kind
        case AndOp => (if Bit(regs.a, k) == 1 && Bit(y, k) == 1 then 1 else 0)
        case XorOp => (if Bit(regs.a, k) != Bit(y, k) then 1 else 0)
        case OrOp => (if Bit(regs.a, k) == 1 || Bit(y, k) == 1 then 1 else 0)
  {
    var a := ApplyLogic(kind, regs.a, y);
    match kind {
      case AndOp => And8Bits(regs.a, y);
      case XorOp => Xor8Bits(regs.a, y);
      case OrOp => Or8Bits(regs.a, y);
    }
    AllFlags(regs.(a := a), a == 0, false, kind == AndOp, false);
  }

  /** The register update of cp: A is kept; Z is (A == y), N set, H is
      (A mod 16 < y mod 16), C is (A < y). */
  lemma CompareWithAEffect(regs: RegFile, y: u8)
    ensures var out := CompareWithA(regs, y);
      out == regs.(f := out.f) && FlagsAre(out, regs, regs.a == y, true, regs.a % 16 < y % 16, regs.a < y)
  {
    LowNibbleOfAnd(regs.a);
    LowNibbleOfAnd(y);
    assert ((regs.a - y) % 0x100 == 0) == (regs.a == y);
    AllFlags(regs, regs.a == y, true, regs.a % 16 < y % 16, regs.a < y);
  }

  /** The half-carry of inc_r8 on whole numbers: for a negative delta, a
      borrow into bit 4 from the magnitude; otherwise a carry out of the
      low nibble. */
  function IncHalfCarry(value: u8, delta: int): bool {
    if delta < 0 then value % 16 < (-delta) % 16 else value % 16 + delta % 16 > 15
  }

  /** inc_r8's arithmetic: the value changes by delta mod 256, and the half
      carry is IncHalfCarry; for INC (+1) it is set exactly when the low
      nibble was 0xF, for DEC (-1) exactly when it was 0. */
  lemma IncResultEffect(value: u8, delta: int)
    requires -0x80 <= delta < 0x80
    ensures IncResult(value, delta) == (value + delta) % 256
    ensures IncHalfCarryFlag(value, delta) == IncHalfCarry(value, delta)
    ensures delta == 1 ==> IncHalfCarry(value, delta) == (value % 16 == 15)
    ensures delta == -1 ==> IncHalfCarry(value, delta) == (value % 16 == 0)
  {
    LowNibbleOfAnd(value);
    if delta < 0 {
      LowNibbleOfAnd(-delta);
    } else {
      LowNibbleOfAnd(delta);
    }
  }

  /** ADD/ADC: the operand is read (DirectOperandEffect); only a failed
      read fails, and then nothing but the operand's cycles and PC change.
      Otherwise the registers are updated by AddToA with the operand plus
      the carry-in (1 when bit 3 of the opcode and the carry flag are set);
      memory is untouched and the clock is the operand's. */
  lemma AddEffect(s: Machine, opcode: u8)
    requires s.mem.Valid() && ArithDefined(s, opcode, AddImmediate(opcode))
    ensures var o := DirectOperand(s, opcode, AddImmediate(opcode)); var r := Add(s, opcode);
      (r.result.Ok? <==> o.result.Ok?) && r.post.mem == s.mem && r.post.clock == o.post.clock &&
      (r.result.Err? ==> r == Effect(Err(o.result.error), o.post)) &&
      (r.result.Ok? ==>
        var y := o.result.value + (if CarryIn(s.regs, opcode) then 1 else 0);
        y < 256 && r.post.regs == AddToA(o.post.regs, y))
  {
    DirectOperandEffect(s, opcode, AddImmediate(opcode));
    var o := DirectOperand(s, opcode, AddImmediate(opcode));
    assert CarryIn(o.post.regs, opcode) == CarryIn(s.regs, opcode);
  }

  /** SUB/SBC: as AddEffect, with SubFromA. */
  lemma SubEffect(s: Machine, opcode: u8)
    requires s.mem.Valid() && ArithDefined(s, opcode, SubImmediate(opcode))
    ensures var o := DirectOperand(s, opcode, SubImmediate(opcode)); var r := Sub(s, opcode);
      (r.result.Ok? <==> o.result.Ok?) && r.post.mem == s.mem && r.post.clock == o.post.clock &&
      (r.result.Err? ==> r == Effect(Err(o.result.error), o.post)) &&
      (r.result.Ok? ==>
        var y := o.result.value + (if CarryIn(s.regs, opcode) then 1 else 0);
        y < 256 && r.post.regs == SubFromA(o.post.regs, y))
  {
    DirectOperandEffect(s, opcode, SubImmediate(opcode));
    var o := DirectOperand(s, opcode, SubImmediate(opcode));
    assert CarryIn(o.post.regs, opcode) == CarryIn(s.regs, opcode);
  }

  /** Add with a register or [HL] operand that reads as `v`: A is updated
      with `v` plus the carry-in, and only the [HL] read ticks the clock. */
  lemma AddOk(s: Machine, opcode: u8, v: u8, y: u8)
    requires s.mem.Valid() && !AddImmediate(opcode)
    requires SourceValue(s, opcode, 0) == Ok(v) && y == v + (if CarryIn(s.regs, opcode) then 1 else 0)
    ensures ArithDefined(s, opcode, false)
    ensures Add(s, opcode) == Effect(Ok(()), Machine(AddToA(s.regs, y), s.mem, s.clock.Inc(HlCount(opcode, 0))))
  {
    DirectOperandEffect(s, opcode, false);
    var o := DirectOperand(s, opcode, false);
    assert o.post == Machine(s.regs, s.mem, s.clock.Inc(HlCount(opcode, 0)));
    assert o.result == Ok(v) && CarryIn(o.post.regs, opcode) == CarryIn(s.regs, opcode);
    assert (if CarryIn(o.post.regs, opcode) then v + 1 else v) == y;
  }

  /** Sub with a register or [HL] operand that reads as `v`: A is updated
      with `v` plus the carry-in, and only the [HL] read ticks the clock. */
  lemma SubOk(s: Machine, opcode: u8, v: u8, y: u8)
    requires s.mem.Valid() && !SubImmediate(opcode)
    requires SourceValue(s, opcode, 0) == Ok(v) && y == v + (if CarryIn(s.regs, opcode) then 1 else 0)
    ensures ArithDefined(s, opcode, false)
    ensures Sub(s, opcode) == Effect(Ok(()), Machine(SubFromA(s.regs, y), s.mem, s.clock.Inc(HlCount(opcode, 0))))
  {
    DirectOperandEffect(s, opcode, false);
    var o := DirectOperand(s, opcode, false);
    assert o.post == Machine(s.regs, s.mem, s.clock.Inc(HlCount(opcode, 0)));
    assert o.result == Ok(v) && CarryIn(o.post.regs, opcode) == CarryIn(s.regs, opcode);
    assert (if CarryIn(o.post.regs, opcode) then v + 1 else v) == y;
  }

  /** AND/XOR/OR: the value-carrying operand agrees with the add/sub
      operand (same value, same error, same machine); on success the
      registers are updated by LogicWithA. */
  lemma LogicEffect(s: Machine, opcode: u8, kind: LogicOp)
    requires s.mem.Valid() && (opcode == LogicImmediate(kind) ==> s.regs.pc < 0xFFFF)
    ensures var o := DirectOperand(s, opcode, opcode == LogicImmediate(kind)); var r := Logic(s, opcode, kind);
      (r.result.Ok? <==> o.result.Ok?) && r.post.mem == s.mem && r.post.clock == o.post.clock &&
      (r.result.Err? ==> r == Effect(Err(o.result.error), o.post)) &&
      (r.result.Ok? ==> r.post.regs == LogicWithA(o.post.regs, kind, o.result.value))
  {
    LoadedParamAgrees(s, opcode == LogicImmediate(kind), opcode);
  }

  /** CP: as LogicEffect, with CompareWithA. */
  lemma CpEffect(s: Machine, opcode: u8)
    requires s.mem.Valid() && (opcode == 0xFE ==> s.regs.pc < 0xFFFF)
    ensures var o := DirectOperand(s, opcode, opcode == 0xFE); var r := Cp(s, opcode);
      (r.result.Ok? <==> o.result.Ok?) && r.post.mem == s.mem && r.post.clock == o.post.clock &&
      (r.result.Err? ==> r == Effect(Err(o.result.error), o.post)) &&
      (r.result.Ok? ==> r.post.regs == CompareWithA(o.post.regs, o.result.value))
  {
    LoadedParamAgrees(s, opcode == 0xFE, opcode);
  }

  /** The flags inc_r8 leaves: [Z, delta < 0, H, C kept]. */
  function IncFlags(regs: RegFile, res: u8, value: u8, delta: int): RegFile
    requires -0x80 <= delta < 0x80
  {
    regs.SetAllFlags(res == 0, delta < 0, IncHalfCarryFlag(value, delta), regs.ReadFlag(Carry))
  }

  /** INC/DEC r8 and [HL]: the operand at bits 5-3 becomes
      IncResult(value, delta), which is (value + delta) mod 256: a register
      is assigned; [HL] is written through the map after three M-cycles in
      all (one for the read, two explicit). Then the flags are set by
      IncFlags. It fails exactly when the operand cannot be read or the
      write fails, and a failed write leaves the flags alone. */
  lemma IncR8Effect(s: Machine, opcode: u8, delta: int)
    requires s.mem.Valid() && -0x80 <= delta < 0x80
    ensures var r := IncR8(s, opcode, delta); var v := SourceValue(s, opcode, 3);
      var field := Field(opcode, 3, 3); var hl := s.regs.HL();
      (r.result.Ok? <==> v.Ok? && (field == 6 ==> MemWrite(s.mem, hl, IncResult(v.value, delta)).0.Ok?)) &&
      (v.Err? ==> r.result == Err(v.error)) &&
      (r.result.Ok? ==>
        var res := IncResult(v.value, delta);
        (field == 6 ==> r.post.clock == s.clock.Inc(3) && r.post.mem == MemWrite(s.mem, hl, res).1 &&
                        r.post.regs == IncFlags(s.regs, res, v.value, delta)) &&
        (field != 6 ==> r.post.clock == s.clock && r.post.mem == s.mem &&
                        r.post.regs == IncFlags(s.regs.SetR8(field, res).value, res, v.value, delta)))
  {
    R8FieldIsRegister(opcode, 3);
    SetThenMatch(s.regs, Field(opcode, 3, 3), 0);
  }
}
