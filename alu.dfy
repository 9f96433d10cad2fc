/** Byte and bit-field utilities of src/cpu/alu/alu.rs (and its older copy
    src/cpu/alu.rs, whose read_u16/write_u16 are the same text).

    Bytes are integers in [0, 256). Shifts, truncation and the bitwise
    operators of Rust (`>>`, `<<`, `as u8`, `&`, `|`, `^`) are defined here
    one bit at a time, least significant bit first, and the lemmas below
    relate them to `Bit`, the value of one bit position. */
module Alu {
  import opened Errors

  type u8 = x: int | 0 <= x < 0x100
  type u16 = x: int | 0 <= x < 0x1_0000

  function Pow2(n: nat): (r: nat)
    ensures r > 0
  {
    if n == 0 then 1 else 2 * Pow2(n - 1)
  }

  /** x >> n */
  function Shr(x: nat, n: nat): nat {
    if n == 0 then x else Shr(x / 2, n - 1)
  }

  /** x << n, without truncation. */
  function Shl(x: nat, n: nat): nat {
    if n == 0 then x else 2 * Shl(x, n - 1)
  }

  /** The low n bits of x (x mod 2^n); `as u8` is Truncate(x, 8). */
  function Truncate(x: nat, n: nat): nat {
    if n == 0 then 0 else 2 * Truncate(x / 2, n - 1) + x % 2
  }

  /** Bit k of x: (x >> k) & 1. */
  function Bit(x: nat, k: nat): nat {
    Shr(x, k) % 2
  }

  /** The `length`-bit field of `num` starting at bit `index`, right-aligned. */
  function Field(num: nat, index: nat, length: nat): nat {
    Truncate(Shr(num, index), length)
  }

  // ---------------------------------------------------------------------
  // Bitwise operators, defined bit by bit.

  function BitAnd(x: nat, y: nat): nat
    decreases x + y
  {
    if x == 0 || y == 0 then 0
    else 2 * BitAnd(x / 2, y / 2) + (if x % 2 == 1 && y % 2 == 1 then 1 else 0)
  }

  function BitOr(x: nat, y: nat): nat
    decreases x + y
  {
    if x == 0 && y == 0 then 0
    else 2 * BitOr(x / 2, y / 2) + (if x % 2 == 1 || y % 2 == 1 then 1 else 0)
  }

  function BitXor(x: nat, y: nat): nat
    decreases x + y
  {
    if x == 0 && y == 0 then 0
    else 2 * BitXor(x / 2, y / 2) + (if x % 2 != y % 2 then 1 else 0)
  }

  /** `x & y` on u8; And8Bits gives it bit by bit. */
  function And8(x: u8, y: u8): u8 {
    BitwiseBounded(x, y, 8);
    BitAnd(x, y)
  }

  lemma And8Bits(x: u8, y: u8)
    ensures forall k: nat :: Bit(And8(x, y), k) == if Bit(x, k) == 1 && Bit(y, k) == 1 then 1 else 0
  {
    forall k: nat ensures Bit(BitAnd(x, y), k) == if Bit(x, k) == 1 && Bit(y, k) == 1 then 1 else 0 {
      BitOfAnd(x, y, k);
    }
  }

  /** `x | y` on u8. */
  function Or8(x: u8, y: u8): u8 {
    BitwiseBounded(x, y, 8);
    BitOr(x, y)
  }

  lemma Or8Bits(x: u8, y: u8)
    ensures forall k: nat :: Bit(Or8(x, y), k) == if Bit(x, k) == 1 || Bit(y, k) == 1 then 1 else 0
  {
    forall k: nat ensures Bit(BitOr(x, y), k) == if Bit(x, k) == 1 || Bit(y, k) == 1 then 1 else 0 {
      BitOfOr(x, y, k);
    }
  }

  /** `x ^ y` on u8. */
  function Xor8(x: u8, y: u8): u8 {
    BitwiseBounded(x, y, 8);
    BitXor(x, y)
  }

  lemma Xor8Bits(x: u8, y: u8)
    ensures forall k: nat :: Bit(Xor8(x, y), k) == if Bit(x, k) != Bit(y, k) then 1 else 0
  {
    forall k: nat ensures Bit(BitXor(x, y), k) == if Bit(x, k) != Bit(y, k) then 1 else 0 {
      BitOfXor(x, y, k);
    }
  }

  // ---------------------------------------------------------------------
  // read_u16 / write_u16

  /** read_u16: `(hi as u16) << 8 | lo as u16`. */
  function ReadU16(lo: u8, hi: u8): (r: u16)
    ensures r == hi * 256 + lo
  {
    OrOfShifted(hi, lo, 8);
    ShlIsMul(hi, 8);
    BitOr(Shl(hi, 8), lo)
  }

  function LowByte(value: u16): u8 { value % 256 }
  function HighByte(value: u16): u8 { value / 256 }

  /** write_u16: stores `value as u8` into lo and `(value >> 8) as u8` into hi. */
  method WriteU16(value: u16) returns (lo: u8, hi: u8)
    ensures lo == LowByte(value) && hi == HighByte(value)
    ensures ReadU16(lo, hi) == value
  {
    hi := value / 256;
    lo := value % 256;
  }

  // ---------------------------------------------------------------------
  // read_bits / write_bits

  /** read_bits: a loop that adds bit (index + i) of num, weighted 2^i, for
      each i below length. Rust panics (a shift of a u8 by 8 or more,
      `2u8.pow(8)`) once the loop reaches bit 8, so a non-empty field must
      end by bit 8. */
  method ReadBits(num: u8, index: nat, length: nat) returns (out: u8)
    requires length == 0 || index + length <= 8
    ensures out == Field(num, index, length)
    ensures out < Pow2(length)
  {
    out := 0;
    var idx := index;
    for i := 0 to length
      invariant idx == index + i
      invariant out == Field(num, index, i)
    {
      FieldGrows(num, index, i);
      Pow2Monotone(i + 1, 8);
      out := out + Bit(num, idx) * Pow2(i);   // ((num >> idx) & 1) * 2^i
      idx := idx + 1;
    }
    TruncateBound(Shr(num, index), length);
  }

  /** The mask `((1 << length) - 1) << index` of write_bits. */
  function Mask(index: nat, length: nat): nat {
    Shl(Pow2(length) - 1, index)
  }

  /** The byte write_bits stores: `(target & !mask) | (bits << index)`, all in
      u8, so `bits << index` drops what is shifted past bit 7. */
  function InsertField(target: u8, index: nat, length: nat, bits: u8): u8
    requires index + length <= 8
  {
    MaskBound(index, length);
    TruncateBound(Shl(bits, index), 8);
    Or8(And8(target, 255 - Mask(index, length)), Truncate(Shl(bits, index), 8))
  }

  /** write_bits: fails when the field does not fit in a byte and otherwise
      replaces the field. Rust panics when `index + length` overflows u8,
      when `1 << length` is evaluated with length == 8, and when a field that
      fits is shifted into place with `<< 8` (index 8, length 0). */
  method WriteBits(target: u8, index: nat, length: nat, bits: u8) returns (r: Result<()>, written: u8)
    requires index + length < 256
    requires index + length <= 8 ==> length < 8
    requires index + length <= 8 ==> index < 8
    ensures r.Err? <==> index + length > 8
    ensures r.Err? ==> r.error == BitOverflow(index, length) && written == target
    ensures r.Ok? ==> written == InsertField(target, index, length, bits)
  {
    if index + length > 8 {
      return Err(BitOverflow(index, length)), target;
    }
    MaskBound(index, length);
    TruncateBound(Shl(bits, index), 8);
    var mask: u8 := Shl(Pow2(length) - 1, index);
    written := Or8(And8(target, 255 - mask), Truncate(Shl(bits, index), 8));
    r := Ok(());
  }

  // ---------------------------------------------------------------------
  // Properties of the byte utilities.

  /** Bytes -> value -> bytes is the identity. */
  lemma SplitCompose(lo: u8, hi: u8)
    ensures LowByte(ReadU16(lo, hi)) == lo && HighByte(ReadU16(lo, hi)) == hi
  {
    var v := ReadU16(lo, hi);
    assert v == hi * 256 + lo;
    assert v / 256 == hi && v % 256 == lo;
  }

  /** Value -> bytes -> value is the identity. */
  lemma ComposeSplit(value: u16)
    ensures ReadU16(LowByte(value), HighByte(value)) == value
  {
  }

  /** read_bits reads nothing outside the field: two bytes agreeing on the
      field bits give the same field value. */
  lemma {:induction false} FieldDependsOnlyOnFieldBits(x: u8, y: u8, index: nat, length: nat)
    requires index + length <= 8
    requires forall k: nat :: index <= k < index + length ==> Bit(x, k) == Bit(y, k)
    ensures Field(x, index, length) == Field(y, index, length)
  {
    TruncateBound(Shr(x, index), length);
    TruncateBound(Shr(y, index), length);
    forall j: nat | j < length ensures Bit(Field(x, index, length), j) == Bit(Field(y, index, length), j) {
      BitOfField(x, index, length, j);
      BitOfField(y, index, length, j);
    }
    BitsDetermine(Field(x, index, length), Field(y, index, length), length);
  }

  /** Bit k of the byte write_bits stores, when `bits` fits in the field: the
      field holds the bits of `bits`, every other bit is the target's. */
  lemma {:induction false} BitOfInsert(target: u8, index: nat, length: nat, bits: u8, k: nat)
    requires index + length <= 8 && bits < Pow2(length) && k < 8
    ensures Bit(InsertField(target, index, length, bits), k)
         == if index <= k < index + length then Bit(bits, k - index) else Bit(target, k)
  {
    MaskBound(index, length);
    TruncateBound(Shl(bits, index), 8);
    Pow2Eight();
    var mask := Mask(index, length);
    var kept := And8(target, 255 - mask);
    var placed: u8 := Truncate(Shl(bits, index), 8);
    assert InsertField(target, index, length, bits) == Or8(kept, placed);
    Or8Bits(kept, placed);
    And8Bits(target, 255 - mask);
    assert Bit(Or8(kept, placed), k) == if Bit(kept, k) == 1 || Bit(placed, k) == 1 then 1 else 0;
    assert Bit(kept, k) == if Bit(target, k) == 1 && Bit(255 - mask, k) == 1 then 1 else 0;
    BitOfComplement(mask, 8, k);
    BitOfMask(index, length, k);
    BitOfTruncate(Shl(bits, index), 8, k);
    BitOfShl(bits, index, k);
    if k >= index + length {
      BitAboveBound(bits, length, k - index);
    }
  }

  /** write_bits with a fitting value changes no bit outside
      [index, index + length). */
  lemma {:induction false} InsertKeepsOtherBits(target: u8, index: nat, length: nat, bits: u8)
    requires index + length <= 8 && bits < Pow2(length)
    ensures forall k: nat :: k < 8 && !(index <= k < index + length) ==>
              Bit(InsertField(target, index, length, bits), k) == Bit(target, k)
  {
    forall k: nat | k < 8 && !(index <= k < index + length)
      ensures Bit(InsertField(target, index, length, bits), k) == Bit(target, k)
    {
      BitOfInsert(target, index, length, bits, k);
    }
  }

  /** Reading back the field written by write_bits yields `bits`. */
  lemma {:induction false} ReadBackInsert(target: u8, index: nat, length: nat, bits: u8)
    requires index + length <= 8 && bits < Pow2(length)
    ensures Field(InsertField(target, index, length, bits), index, length) == bits
  {
    var t' := InsertField(target, index, length, bits);
    TruncateBound(Shr(t', index), length);
    forall j: nat | j < length ensures Bit(Field(t', index, length), j) == Bit(bits, j) {
      BitOfField(t', index, length, j);
      BitOfInsert(target, index, length, bits, index + j);
    }
    BitsDetermine(Field(t', index, length), bits, length);
  }

  /** Writing back the field just read leaves the byte unchanged. */
  lemma {:induction false} InsertOwnField(target: u8, index: nat, length: nat)
    requires index + length <= 8
    ensures Field(target, index, length) < 256
    ensures InsertField(target, index, length, Field(target, index, length)) == target
  {
    TruncateBound(Shr(target, index), length);
    Pow2Monotone(length, 8);
    var f := Field(target, index, length);
    var t' := InsertField(target, index, length, f);
    forall k: nat | k < 8 ensures Bit(t', k) == Bit(target, k) {
      BitOfInsert(target, index, length, f, k);
      if index <= k < index + length {
        BitOfField(target, index, length, k - index);
      }
    }
    BitsDetermine(t', target, 8);
  }

  /** As written, write_bits does not clear the bits of `bits` above the
      field: writing 3 into the one-bit field at bit 0 of 0 also sets bit 1,
      which lies outside the field. */
  lemma UnmaskedBitsSpill()
    ensures Bit(InsertField(0, 0, 1, 3), 1) == 1
  {
    Pow2Eight();
    MaskBound(0, 1);
    TruncateBound(3, 8);
    var kept := And8(0, 255 - Mask(0, 1));
    var placed: u8 := Truncate(Shl(3, 0), 8);
    assert InsertField(0, 0, 1, 3) == Or8(kept, placed);
    BitOfTruncate(3, 8, 1);
    assert Bit(3, 1) == 1;
  }

  /** `x & 0xF` is the low nibble x mod 16. */
  lemma LowNibbleOfAnd(x: u8)
    ensures And8(x, 0xF) == x % 16
  {
    var t := Truncate(x, 4);
    TruncateBound(x, 4);
    Pow2Eight();
    And8Bits(x, 0xF);
    forall k: nat | k < 8 ensures Bit(And8(x, 0xF), k) == Bit(t, k) {
      BitOfOnes(4, k);
      BitOfTruncate(x, 4, k);
    }
    BitsDetermine(And8(x, 0xF), t, 8);
    TruncateLowBits(x);
  }

  /** Truncating to n bits is the remainder modulo 2^n. */
  lemma {:induction false} TruncateIsMod(x: nat, n: nat)
    ensures Truncate(x, n) == x % Pow2(n)
    decreases n
  {
    if n > 0 {
      var p := Pow2(n - 1);
      TruncateIsMod(x / 2, n - 1);
      var q, r := x / 2 / p, x / 2 % p;
      assert x == 2 * p * q + (2 * r + x % 2);
      DivUnique(x, 2 * p, q, 2 * r + x % 2);
    }
  }

  /** A field as division and remainder. */
  lemma FieldIsDivMod(x: nat, index: nat, length: nat)
    ensures Field(x, index, length) == x / Pow2(index) % Pow2(length)
  {
    ShrIsDiv(x, index);
    TruncateIsMod(Shr(x, index), length);
  }

  /** Truncation to 4, 3 and 2 bits is the remainder by 16, 8 and 4. */
  lemma TruncateLowBits(x: nat)
    ensures Truncate(x, 4) == x % 16
  {
    TruncateThree(x / 2);
    assert Truncate(x, 4) == 2 * Truncate(x / 2, 3) + x % 2;
  }

  lemma TruncateThree(x: nat)
    ensures Truncate(x, 3) == x % 8
  {
    TruncateTwo(x / 2);
    assert Truncate(x, 3) == 2 * Truncate(x / 2, 2) + x % 2;
  }

  lemma TruncateTwo(x: nat)
    ensures Truncate(x, 2) == x % 4
  {
    var q, r := x / 4, x % 4;
    assert x == 4 * q + r;
    assert x / 2 == 2 * q + r / 2 && x % 2 == r % 2;
    assert Truncate(x / 2, 1) == r / 2;
    assert Truncate(x, 2) == 2 * (r / 2) + r % 2;
  }

  // ---------------------------------------------------------------------
  // Facts about shifts and bits.

  lemma Pow2Monotone(a: nat, b: nat)
    requires a <= b
    ensures Pow2(a) <= Pow2(b)
    decreases b
  {
    if a < b {
      Pow2Monotone(a, b - 1);
    }
  }

  lemma Pow2Eight()
    ensures Pow2(8) == 256
  {
  }

  lemma ShlIsMul(x: nat, n: nat)
    ensures Shl(x, n) == x * Pow2(n)
  {
    if n > 0 {
      ShlIsMul(x, n - 1);
      assert x * Pow2(n) == x * (2 * Pow2(n - 1)) == 2 * (x * Pow2(n - 1));
    }
  }

  lemma ShrOfZero(n: nat)
    ensures Shr(0, n) == 0
  {
  }

  lemma ShrAdd(x: nat, a: nat, b: nat)
    ensures Shr(Shr(x, a), b) == Shr(x, a + b)
    decreases a
  {
    if a > 0 {
      ShrAdd(x / 2, a - 1, b);
    }
  }

  /** x >> n is x divided by 2^n. */
  lemma {:induction false} ShrIsDiv(x: nat, n: nat)
    ensures Shr(x, n) == x / Pow2(n)
    decreases n
  {
    if n > 0 {
      ShrIsDiv(x / 2, n - 1);
      DivDiv(x, 2, Pow2(n - 1));
    }
  }

  lemma MulAtLeast(m: int, d: int)
    requires m > 0 && d >= 1
    ensures m * d >= m
  {
    assert m * d == m + m * (d - 1);
  }

  /** Integer division is determined by quotient and remainder. */
  lemma DivUnique(x: int, m: int, q: int, r: int)
    requires m > 0 && 0 <= r < m && x == m * q + r
    ensures x / m == q && x % m == r
  {
    var q0, r0 := x / m, x % m;
    assert m * (q0 - q) == r - r0;
    if q0 > q { MulAtLeast(m, q0 - q); }
    if q0 < q { MulAtLeast(m, q - q0); }
  }

  /** Dividing by a and then by b is dividing by a * b. */
  lemma DivDiv(x: nat, a: nat, b: nat)
    requires a > 0 && b > 0
    ensures x / a / b == x / (a * b)
  {
    var q, r := x / a, x % a;
    var q2, r2 := q / b, q % b;
    assert x == a * q + r;
    assert q == b * q2 + r2;
    assert a * q == a * b * q2 + a * r2;
    if r2 < b - 1 {
      MulAtLeast(a, b - 1 - r2);
    }
    assert a * r2 <= a * (b - 1);
    DivUnique(x, a * b, q2, a * r2 + r);
  }

  lemma {:induction false} Pow2Add(a: nat, b: nat)
    ensures Pow2(a + b) == Pow2(a) * Pow2(b)
    decreases a
  {
    if a > 0 {
      Pow2Add(a - 1, b);
    }
  }

  /** x with bit k replaced by b (0 or 1): the bits above k, then b, then
      the bits below k. */
  function WithBit(x: nat, k: nat, b: nat): nat {
    var p := Pow2(k);
    DivFloor(x, 2 * p);
    x - x % (2 * p) + b * p + x % p
  }

  /** Bit j of WithBit is b at k and the bit of x everywhere else. */
  lemma BitOfWithBit(x: nat, k: nat, b: nat, j: nat)
    requires b < 2
    ensures Bit(WithBit(x, k, b), j) == if j == k then b else Bit(x, j)
  {
    var p := Pow2(k);
    var g := WithBit(x, k, b);
    var h, low := x / (2 * p), x % p;
    DivFloor(x, 2 * p);
    assert g == p * (2 * h + b) + low;
    ShrIsDiv(g, j);
    ShrIsDiv(x, j);
    if j == k {
      DivUnique(g, p, 2 * h + b, low);
    } else if j > k {
      var q := Pow2(j - k - 1);
      Pow2Add(k + 1, j - k - 1);
      assert g == (2 * p) * h + (b * p + low);
      DivUnique(g, 2 * p, h, b * p + low);
      DivDiv(g, 2 * p, q);
      DivDiv(x, 2 * p, q);
    } else {
      var m, d := Pow2(j), Pow2(k - j - 1);
      Pow2Add(j, k - j);
      WithBitBelow(x, g, p, h, b, m, d);
    }
  }

  /** A bit below the replaced one, with p = m * 2d the replaced bit's
      weight and m the weight of the bit looked at. */
  lemma WithBitBelow(x: nat, g: nat, p: nat, h: nat, b: nat, m: nat, d: nat)
    requires b < 2 && m > 0 && d > 0 && p == m * (2 * d)
    requires h == x / (2 * p) && g == p * (2 * h + b) + x % p
    ensures g / m % 2 == x / m % 2
  {
    var low, t := x % p, x / p;
    var c, e := low / m, low % m;
    assert x == p * t + low;
    assert low == m * c + e;
    Regroup(p, m, d, t, low, c, e);
    Regroup(p, m, d, 2 * h + b, low, c, e);
    DivUnique(x, m, 2 * (d * t) + c, e);
    DivUnique(g, m, 2 * (d * (2 * h + b)) + c, e);
    EvenPlus(d * t, c);
    EvenPlus(d * (2 * h + b), c);
  }

  lemma DivFloor(x: nat, m: nat)
    requires m > 0
    ensures x % m <= x && x - x % m == m * (x / m)
  {
    if x / m != 0 {
      MulAtLeast(m, x / m);
    }
  }

  lemma EvenPlus(w: int, c: int)
    ensures (2 * w + c) % 2 == c % 2
  {
  }

  lemma Regroup(p: int, m: int, d: int, t: int, low: int, c: int, e: int)
    requires p == m * (2 * d) && low == m * c + e
    ensures p * t + low == m * (2 * (d * t) + c) + e
  {
  }

  /** The powers of two up to 2^8. */
  lemma Pow2Byte(n: nat)
    requires n <= 8
    ensures Pow2(n) == [1, 2, 4, 8, 16, 32, 64, 128, 256][n]
  {
  }

  lemma TruncateBound(x: nat, n: nat)
    ensures Truncate(x, n) < Pow2(n)
    ensures n <= 8 ==> Pow2(n) <= 256
  {
    if n <= 8 {
      Pow2Monotone(n, 8);
    }
  }

  /** Truncating to i + 1 bits adds bit i, weighted 2^i, to the i-bit value. */
  lemma {:induction false} TruncateGrows(y: nat, i: nat)
    ensures Truncate(y, i + 1) == Truncate(y, i) + (if Bit(y, i) == 1 then Pow2(i) else 0)
    decreases i
  {
    if i > 0 {
      TruncateGrows(y / 2, i - 1);
    }
  }

  /** One loop iteration of read_bits adds the next bit of the field. */
  lemma FieldGrows(num: nat, index: nat, i: nat)
    ensures Field(num, index, i + 1) == Field(num, index, i) + Bit(num, index + i) * Pow2(i)
    ensures Field(num, index, i + 1) < Pow2(i + 1)
  {
    TruncateGrows(Shr(num, index), i);
    ShrAdd(num, index, i);
    TruncateBound(Shr(num, index), i + 1);
    if Bit(num, index + i) == 1 {
      assert Bit(num, index + i) * Pow2(i) == Pow2(i);
    } else {
      assert Bit(num, index + i) * Pow2(i) == 0;
    }
  }

  lemma {:induction false} BitOfTruncate(x: nat, n: nat, k: nat)
    ensures Bit(Truncate(x, n), k) == if k < n then Bit(x, k) else 0
    decreases n
  {
    if n == 0 {
      ShrOfZero(k);
    } else if k > 0 {
      var t := Truncate(x, n);
      assert t / 2 == Truncate(x / 2, n - 1);
      BitOfTruncate(x / 2, n - 1, k - 1);
    }
  }

  lemma {:induction false} BitOfShl(y: nat, i: nat, k: nat)
    ensures Bit(Shl(y, i), k) == if k < i then 0 else Bit(y, k - i)
    decreases i
  {
    if i > 0 && k > 0 {
      assert Shl(y, i) / 2 == Shl(y, i - 1);
      BitOfShl(y, i - 1, k - 1);
    }
  }

  /** A value below 2^n has no bit at or above n. */
  lemma {:induction false} BitAboveBound(x: nat, n: nat, k: nat)
    requires x < Pow2(n) && k >= n
    ensures Bit(x, k) == 0
    decreases n
  {
    if n == 0 {
      ShrOfZero(k);
    } else {
      BitAboveBound(x / 2, n - 1, k - 1);
    }
  }

  /** Bits of 2^n - 1: ones below n. */
  lemma {:induction false} BitOfOnes(n: nat, k: nat)
    ensures Bit(Pow2(n) - 1, k) == if k < n then 1 else 0
    decreases n
  {
    if n == 0 {
      ShrOfZero(k);
    } else if k > 0 {
      assert (Pow2(n) - 1) / 2 == Pow2(n - 1) - 1;
      BitOfOnes(n - 1, k - 1);
    }
  }

  lemma {:induction false} ShlBound(y: nat, n: nat, i: nat)
    requires y < Pow2(n)
    ensures Shl(y, i) < Pow2(n + i)
    decreases i
  {
    if i > 0 {
      ShlBound(y, n, i - 1);
    }
  }

  lemma MaskBound(index: nat, length: nat)
    requires index + length <= 8
    ensures Mask(index, length) < 256
  {
    ShlBound(Pow2(length) - 1, length, index);
    Pow2Monotone(length + index, 8);
  }

  lemma BitOfMask(index: nat, length: nat, k: nat)
    ensures Bit(Mask(index, length), k) == if index <= k < index + length then 1 else 0
  {
    BitOfShl(Pow2(length) - 1, index, k);
    if k >= index {
      BitOfOnes(length, k - index);
    }
  }

  /** Bits of (2^n - 1) - m, the n-bit complement `!m`. */
  lemma {:induction false} BitOfComplement(m: nat, n: nat, k: nat)
    requires m < Pow2(n) && k < n
    ensures Bit(Pow2(n) - 1 - m, k) == 1 - Bit(m, k)
    decreases n
  {
    if k > 0 {
      assert (Pow2(n) - 1 - m) / 2 == Pow2(n - 1) - 1 - m / 2;
      BitOfComplement(m / 2, n - 1, k - 1);
    }
  }

  lemma BitOfField(x: nat, index: nat, length: nat, j: nat)
    ensures Bit(Field(x, index, length), j) == if j < length then Bit(x, index + j) else 0
  {
    BitOfTruncate(Shr(x, index), length, j);
    ShrAdd(x, index, j);
  }

  /** Two values below 2^n with the same n low bits are equal. */
  lemma {:induction false} BitsDetermine(x: nat, y: nat, n: nat)
    requires x < Pow2(n) && y < Pow2(n)
    requires forall k: nat :: k < n ==> Bit(x, k) == Bit(y, k)
    ensures x == y
    decreases n
  {
    if n > 0 {
      forall k: nat | k < n - 1 ensures Bit(x / 2, k) == Bit(y / 2, k) {
        assert Bit(x, k + 1) == Bit(y, k + 1);
      }
      BitsDetermine(x / 2, y / 2, n - 1);
      assert Bit(x, 0) == Bit(y, 0);
    }
  }

  lemma {:induction false} BitOfAnd(x: nat, y: nat, k: nat)
    ensures Bit(BitAnd(x, y), k) == if Bit(x, k) == 1 && Bit(y, k) == 1 then 1 else 0
    decreases k
  {
    if x == 0 || y == 0 {
      ShrOfZero(k);
    } else if k > 0 {
      assert BitAnd(x, y) / 2 == BitAnd(x / 2, y / 2);
      BitOfAnd(x / 2, y / 2, k - 1);
    }
  }

  lemma {:induction false} BitOfOr(x: nat, y: nat, k: nat)
    ensures Bit(BitOr(x, y), k) == if Bit(x, k) == 1 || Bit(y, k) == 1 then 1 else 0
    decreases k
  {
    if x == 0 && y == 0 {
      ShrOfZero(k);
    } else if k > 0 {
      assert BitOr(x, y) / 2 == BitOr(x / 2, y / 2);
      BitOfOr(x / 2, y / 2, k - 1);
    }
  }

  lemma {:induction false} BitOfXor(x: nat, y: nat, k: nat)
    ensures Bit(BitXor(x, y), k) == if Bit(x, k) != Bit(y, k) then 1 else 0
    decreases k
  {
    if x == 0 && y == 0 {
      ShrOfZero(k);
    } else if k > 0 {
      assert BitXor(x, y) / 2 == BitXor(x / 2, y / 2);
      BitOfXor(x / 2, y / 2, k - 1);
    }
  }

  /** &, | and ^ of two n-bit values are n-bit values. */
  lemma {:induction false} BitwiseBounded(x: nat, y: nat, n: nat)
    requires x < Pow2(n) && y < Pow2(n)
    ensures BitAnd(x, y) < Pow2(n) && BitOr(x, y) < Pow2(n) && BitXor(x, y) < Pow2(n)
    decreases n
  {
    if n > 0 && (x != 0 || y != 0) {
      BitwiseBounded(x / 2, y / 2, n - 1);
    }
  }

  /** `(h << n) | y` is `(h << n) + y` when y lies below bit n. */
  lemma {:induction false} OrOfShifted(h: nat, y: nat, n: nat)
    requires y < Pow2(n)
    ensures BitOr(Shl(h, n), y) == Shl(h, n) + y
    decreases n
  {
    if n == 0 {
      OrZero(h);
    } else if Shl(h, n) != 0 || y != 0 {
      assert Shl(h, n) / 2 == Shl(h, n - 1);
      OrOfShifted(h, y / 2, n - 1);
    }
  }

  lemma {:induction false} OrZero(x: nat)
    ensures BitOr(x, 0) == x
    decreases x
  {
    if x != 0 {
      OrZero(x / 2);
    }
  }
}
