/** The register file as its call sites use it: eight 8-bit registers
    (A, F, B, C, D, E, H, L), SP and PC; the r8 index order b, c, d, e, h,
    l, [hl], a; the flags Z, N, H, C in bits 7, 6, 5, 4 of F; and the
    condition codes NZ, Z, NC, C. */
module Registers {
  import opened Errors
  import opened Alu

  datatype Flag = Zero | Subtract | HalfCarry | Carry

  /** Bit position of each flag in F. */
  function FlagBit(flag: Flag): (k: nat)
    ensures 4 <= k <= 7
  {
    match flag
    case Zero => 7
    case Subtract => 6
    case HalfCarry => 5
    case Carry => 4
  }

  /** `f` with the bit of `flag` replaced by `value`: the bits above it,
      the new bit, and the bits below it. */
  function WithFlag(f: u8, flag: Flag, value: bool): u8 {
    match flag
    case Zero => (if value then 0x80 else 0) + f % 0x80
    case Subtract => f / 0x80 * 0x80 + (if value then 0x40 else 0) + f % 0x40
    case HalfCarry => f / 0x40 * 0x40 + (if value then 0x20 else 0) + f % 0x20
    case Carry => f / 0x20 * 0x20 + (if value then 0x10 else 0) + f % 0x10
  }

  datatype RegFile = RegFile(a: u8, b: u8, c: u8, d: u8, e: u8, f: u8, h: u8, l: u8, sp: u16, pc: u16)
  {
    /** match_r8: the register behind an r8 index; 6 ([hl]) and indices above
        7 name no register. */
    function MatchR8(index: nat): Result<u8> {
      match index
      case 0 => Ok(b)
      case 1 => Ok(c)
      case 2 => Ok(d)
      case 3 => Ok(e)
      case 4 => Ok(h)
      case 5 => Ok(l)
      case 7 => Ok(a)
      case _ => Err(InvalidRegister(index))
    }

    /** Assignment through `*match_r8(index)? = value`. */
    function SetR8(index: nat, value: u8): Result<RegFile> {
      match index
      case 0 => Ok(this.(b := value))
      case 1 => Ok(this.(c := value))
      case 2 => Ok(this.(d := value))
      case 3 => Ok(this.(e := value))
      case 4 => Ok(this.(h := value))
      case 5 => Ok(this.(l := value))
      case 7 => Ok(this.(a := value))
      case _ => Err(InvalidRegister(index))
    }

    function ReadFlag(flag: Flag): bool {
      Bit(f, FlagBit(flag)) == 1
    }

    /** set_flag: F with the bit of the flag replaced by `value`. */
    function SetFlag(flag: Flag, value: bool): RegFile {
      this.(f := WithFlag(f, flag, value))
    }

    /** set_all_flags([z, n, h, c]). */
    function SetAllFlags(z: bool, n: bool, hc: bool, cy: bool): RegFile {
      SetFlag(Zero, z).SetFlag(Subtract, n).SetFlag(HalfCarry, hc).SetFlag(Carry, cy)
    }

    /** match_condition: 0..3 are NZ, Z, NC, C. */
    function MatchCondition(code: nat): Result<bool> {
      match code
      case 0 => Ok(!ReadFlag(Zero))
      case 1 => Ok(ReadFlag(Zero))
      case 2 => Ok(!ReadFlag(Carry))
      case 3 => Ok(ReadFlag(Carry))
      case _ => Err(InvalidCondition(code))
    }

    /** HL as an address. */
    function HL(): u16 {
      ReadU16(l, h)
    }
  }

  // ---------------------------------------------------------------------

  /** The register indices: every index but 6 below 8. */
  predicate IsRegister(index: nat) {
    index < 8 && index != 6
  }

  /** match_r8 succeeds exactly on register indices, and assigning then
      reading the same index returns the value. */
  lemma SetThenMatch(r: RegFile, index: nat, value: u8)
    ensures r.MatchR8(index).Ok? <==> IsRegister(index)
    ensures r.SetR8(index, value).Ok? <==> IsRegister(index)
    ensures IsRegister(index) ==> r.SetR8(index, value).value.MatchR8(index) == Ok(value)
  {
  }

  /** Assigning one register leaves every other register, F, SP and PC alone. */
  lemma SetR8Frame(r: RegFile, index: nat, value: u8, other: nat)
    requires IsRegister(index) && other != index
    ensures r.SetR8(index, value).value.MatchR8(other) == r.MatchR8(other)
    ensures var r' := r.SetR8(index, value).value; r'.f == r.f && r'.sp == r.sp && r'.pc == r.pc
  {
  }

  /** Bit j of WithFlag: the new value at the flag's bit, the old bit
      everywhere else. */
  lemma WithFlagBit(f: u8, flag: Flag, value: bool, j: nat)
    requires j < 8
    ensures Bit(WithFlag(f, flag, value), j) == if j == FlagBit(flag) then (if value then 1 else 0) else Bit(f, j)
  {
    var v := if value then 1 else 0;
    WithFlagIsWithBit(f, flag, v);
    BitOfWithBit(f, FlagBit(flag), v, j);
  }

  lemma WithFlagIsWithBit(f: u8, flag: Flag, v: nat)
    requires v < 2
    ensures WithFlag(f, flag, v == 1) == WithBit(f, FlagBit(flag), v)
  {
    Pow2Byte(FlagBit(flag));
    Pow2Byte(FlagBit(flag) + 1);
    match flag
    case Zero => assert WithBit(f, 7, v) == f - f % 0x100 + v * 0x80 + f % 0x80;
    case Subtract => assert WithBit(f, 6, v) == f - f % 0x80 + v * 0x40 + f % 0x40;
    case HalfCarry => assert WithBit(f, 5, v) == f - f % 0x40 + v * 0x20 + f % 0x20;
    case Carry => assert WithBit(f, 4, v) == f - f % 0x20 + v * 0x10 + f % 0x10;
  }

  /** set_flag sets the named flag and keeps every other bit of F. */
  lemma SetFlagEffect(r: RegFile, flag: Flag, value: bool)
    ensures r.SetFlag(flag, value).ReadFlag(flag) == value
    ensures forall k: nat :: k < 8 && k != FlagBit(flag) ==> Bit(r.SetFlag(flag, value).f, k) == Bit(r.f, k)
    ensures r.SetFlag(flag, value) == r.(f := r.SetFlag(flag, value).f)
  {
    forall k: nat | k < 8
      ensures Bit(WithFlag(r.f, flag, value), k) == if k == FlagBit(flag) then (if value then 1 else 0) else Bit(r.f, k)
    {
      WithFlagBit(r.f, flag, value, k);
    }
  }

  /** set_all_flags leaves the four flags as given and the low nibble of F,
      and every other register, as they were. */
  lemma {:induction false} SetAllFlagsEffect(r: RegFile, z: bool, n: bool, hc: bool, cy: bool)
    ensures var r' := r.SetAllFlags(z, n, hc, cy);
      r'.ReadFlag(Zero) == z && r'.ReadFlag(Subtract) == n &&
      r'.ReadFlag(HalfCarry) == hc && r'.ReadFlag(Carry) == cy
    ensures var r' := r.SetAllFlags(z, n, hc, cy);
      (forall k: nat :: k < 4 ==> Bit(r'.f, k) == Bit(r.f, k)) && r' == r.(f := r'.f)
  {
    var r1 := r.SetFlag(Zero, z);
    var r2 := r1.SetFlag(Subtract, n);
    var r3 := r2.SetFlag(HalfCarry, hc);
    SetFlagEffect(r, Zero, z);
    SetFlagEffect(r1, Subtract, n);
    SetFlagEffect(r2, HalfCarry, hc);
    SetFlagEffect(r3, Carry, cy);
  }

  /** add and sub set the flags one at a time in the order H, C, Z, N; the
      result is the same register file as set_all_flags([Z, N, H, C]). */
  lemma {:induction false} SetFlagsInAddOrder(r: RegFile, hc: bool, cy: bool, z: bool, n: bool)
    ensures r.SetFlag(HalfCarry, hc).SetFlag(Carry, cy).SetFlag(Zero, z).SetFlag(Subtract, n)
         == r.SetAllFlags(z, n, hc, cy)
  {
    var a1 := r.SetFlag(HalfCarry, hc);
    var a2 := a1.SetFlag(Carry, cy);
    var a3 := a2.SetFlag(Zero, z);
    var a4 := a3.SetFlag(Subtract, n);
    SetFlagEffect(r, HalfCarry, hc);
    SetFlagEffect(a1, Carry, cy);
    SetFlagEffect(a2, Zero, z);
    SetFlagEffect(a3, Subtract, n);
    var b := r.SetAllFlags(z, n, hc, cy);
    SetAllFlagsEffect(r, z, n, hc, cy);
    forall k: nat | k < 8 ensures Bit(a4.f, k) == Bit(b.f, k) {
      if k == 4 {
        assert a4.ReadFlag(Carry) == cy == b.ReadFlag(Carry);
      } else if k == 5 {
        assert a4.ReadFlag(HalfCarry) == hc == b.ReadFlag(HalfCarry);
      } else if k == 6 {
        assert a4.ReadFlag(Subtract) == n == b.ReadFlag(Subtract);
      } else if k == 7 {
        assert a4.ReadFlag(Zero) == z == b.ReadFlag(Zero);
      }
    }
    Pow2Eight();
    BitsDetermine(a4.f, b.f, 8);
  }

  /** Condition codes 0..3 test the flags as NZ, Z, NC, C; other codes fail. */
  lemma ConditionMeaning(r: RegFile, code: nat)
    ensures r.MatchCondition(code).Ok? <==> code < 4
    ensures code < 4 ==>
      r.MatchCondition(code).value == ((if code < 2 then r.ReadFlag(Zero) else r.ReadFlag(Carry)) == (code % 2 == 1))
  {
  }
}
