/** Operand descriptors decoded from opcode fields (src/cpu/operands.rs, the
    duplicate R8 of src/cpu/cpu_context.rs, and the value-carrying R8 of
    src/cpu/clu/clu.rs), and the 16-bit register pairs. The state-changing
    operand operations (get_r8_param, R8::read, R8::write) live with the
    machine semantics; this module holds the descriptors and the pure pair
    operations. */
module Operands {
  import opened Errors
  import opened Alu
  import opened Registers

  /** An 8-bit operand: register index (b, c, d, e, h, l, -, a), the byte at
      HL, or an immediate byte. */
  datatype R8 = Register(index: nat) | Hl(addr: u16) | N8(byte: u8)

  /** The intermediate revision's operand, which carries the value read when
      it was decoded. */
  datatype LoadedR8 =
    | LoadedRegister(reg: nat, value: u8)
    | LoadedHl(addr: u16, value: u8)
    | LoadedN8(byte: u8)

  datatype R16Type = R16 | R16Stk | R16Mem

  datatype R16Pair = BC | DE | HL | AF | SP

  /** R16::new: the 2-bit field at `index`; 3 names SP, AF or HL depending
      on the operand table. It never fails; the second postcondition is the
      decoding table itself, stated as the specification of the pairs. */
  function R16New(opcode: u8, index: nat, kind: R16Type): (r: Result<R16Pair>)
    requires index <= 6
    ensures r.Ok?
    ensures var p := Field(opcode, index, 2);
      r.value == (if p == 0 then BC else if p == 1 then DE else if p == 2 then HL
                  else match kind case R16 => SP case R16Stk => AF case R16Mem => HL)
  {
    TruncateBound(Shr(opcode, index), 2);
    var param := Field(opcode, index, 2);
    match param
    case 0 => Ok(BC)
    case 1 => Ok(DE)
    case 2 => Ok(HL)
    case 3 => (match kind case R16 => Ok(SP) case R16Stk => Ok(AF) case R16Mem => Ok(HL))
  }

  /** R16::read: the pair composed high register first (B, D, H, A high;
      C, E, L, F low), or SP. */
  function R16Read(pair: R16Pair, regs: RegFile): u16 {
    match pair
    case BC => ReadU16(regs.c, regs.b)
    case DE => ReadU16(regs.e, regs.d)
    case HL => ReadU16(regs.l, regs.h)
    case AF => ReadU16(regs.f, regs.a)
    case SP => regs.sp
  }

  /** R16::write: write_u16 into the pair's low and high registers, or SP. */
  function R16Write(pair: R16Pair, value: u16, regs: RegFile): RegFile {
    var lo, hi := LowByte(value), HighByte(value);
    match pair
    case BC => regs.(c := lo, b := hi)
    case DE => regs.(e := lo, d := hi)
    case HL => regs.(l := lo, h := hi)
    case AF => regs.(f := lo, a := hi)
    case SP => regs.(sp := value)
  }

  /** The two registers a pair occupies, as r8 indices (AF uses 6 for F,
      which has no r8 index); SP occupies none. */
  function PairBytes(pair: R16Pair): set<nat> {
    match pair
    case BC => {0, 1}
    case DE => {2, 3}
    case HL => {4, 5}
    case AF => {7}
    case SP => {}
  }

  // ---------------------------------------------------------------------

  /** Writing a pair then reading it returns the value written. */
  lemma R16WriteRead(pair: R16Pair, value: u16, regs: RegFile)
    ensures R16Read(pair, R16Write(pair, value, regs)) == value
  {
    ComposeSplit(value);
  }

  /** Reading a pair then writing it back changes nothing. */
  lemma R16ReadWrite(pair: R16Pair, regs: RegFile)
    ensures R16Write(pair, R16Read(pair, regs), regs) == regs
  {
    match pair
    case BC => SplitCompose(regs.c, regs.b);
    case DE => SplitCompose(regs.e, regs.d);
    case HL => SplitCompose(regs.l, regs.h);
    case AF => SplitCompose(regs.f, regs.a);
    case SP =>
  }

  /** R16::write changes only the two bytes of its pair (or SP): every r8
      register outside the pair, and PC, keep their values; SP changes only
      for SP, and F only for AF. */
  lemma R16WriteFrame(pair: R16Pair, value: u16, regs: RegFile, index: nat)
    requires IsRegister(index) && index !in PairBytes(pair)
    ensures R16Write(pair, value, regs).MatchR8(index) == regs.MatchR8(index)
    ensures R16Write(pair, value, regs).pc == regs.pc
    ensures pair != SP ==> R16Write(pair, value, regs).sp == regs.sp
    ensures pair != AF ==> R16Write(pair, value, regs).f == regs.f
  {
  }

  /** Byte order of the pairs: the first-named register is the high byte. */
  lemma R16ByteOrder(pair: R16Pair, value: u16, regs: RegFile)
    requires pair != SP
    ensures var r := R16Write(pair, value, regs);
      match pair
      case BC => r.b == value / 256 && r.c == value % 256
      case DE => r.d == value / 256 && r.e == value % 256
      case HL => r.h == value / 256 && r.l == value % 256
      case AF => r.a == value / 256 && r.f == value % 256
  {
  }
}
