/** The cartridge header decoding of src/rom/rom_parser.rs, over the ROM as
    a byte sequence. It follows the Pan Docs "The Cartridge Header"
    sections 0104-0133 (logo), 0143 (CGB flag), 0146 (SGB flag), 0148 (ROM
    size), 0149 (RAM size), 014D (header checksum) and 014E-014F (global
    checksum). The `assert!`s of parse_rom_header abort the program; here they are a
    `Rejected` result naming the check that failed. */
module RomParser {
  import opened Alu
  import opened Errors

  /** The logo every cartridge carries at 0x104..=0x133. */
  const Nintendo: seq<u8> := [
    0xCE, 0xED, 0x66, 0x66, 0xCC, 0x0D, 0x00, 0x0B, 0x03, 0x73, 0x00, 0x83, 0x00, 0x0C, 0x00, 0x0D,
    0x00, 0x08, 0x11, 0x1F, 0x88, 0x89, 0x00, 0x0E, 0xDC, 0xCC, 0x6E, 0xE6, 0xDD, 0xDD, 0xD9, 0x99,
    0xBB, 0xBB, 0x67, 0x63, 0x6E, 0x0E, 0xEC, 0xCC, 0xDD, 0xDC, 0x99, 0x9F, 0xBB, 0xB9, 0x33, 0x3E
  ]

  const LogoStart: nat := 0x104
  const LogoEnd: nat := 0x134        // exclusive: the range 0x104..=0x133
  const HeaderSize: nat := 0x150
  const HeaderStart: nat := 0x134
  const HeaderEnd: nat := 0x14D      // exclusive: the range 0x134..=0x14C
  const TitleEnd: nat := 0x143       // the title is 0x134..0x143
  const CgbFlagAddr: nat := 0x143
  const SgbFlagAddr: nat := 0x146
  const CartridgeTypeAddr: nat := 0x147
  const RomBanksAddr: nat := 0x148
  const MemBanksAddr: nat := 0x149
  const HeaderChecksumAddr: nat := 0x14D
  const RomChecksumAddr: nat := 0x14E  // two bytes, 0x14E..=0x14F

  datatype CgbMode = Monochrome | Color(exclusive: bool)

  /** The decoded header. The title is kept as its raw bytes. */
  datatype RomInfo = RomInfo(
    title: seq<u8>,
    cgb: CgbMode,
    sgb: bool,
    cartridgeType: u8,
    romBanks: u16,
    memBanks: u16,
    headerChecksum: u8,
    romChecksum: u16)

  /** The check that stops the parse, in the order the source makes them. */
  datatype Rejection = TooShort | NoLogo | RomSizeOverflow | BadHeaderChecksum

  datatype Header = Accepted(info: RomInfo) | Rejected(reason: Rejection)

  // ---------------------------------------------------------------------
  // Header checksum

  /** The checksum accumulator after `bytes`: it starts at 0 and each byte
      b takes it from x to x - b - 1, wrapping at 256. */
  function HeaderChecksum(bytes: seq<u8>): u8
    decreases |bytes|
  {
    if |bytes| == 0 then 0
    else (HeaderChecksum(bytes[..|bytes| - 1]) - bytes[|bytes| - 1] - 1) % 0x100
  }

  /** The plain sum of some bytes. */
  function Sum(bytes: seq<u8>): nat
    decreases |bytes|
  {
    if |bytes| == 0 then 0 else Sum(bytes[..|bytes| - 1]) + bytes[|bytes| - 1]
  }

  /** validate_header_checksum: runs the accumulator over the header and
      compares it with the stored byte. */
  method ValidateHeaderChecksum(header: seq<u8>, checksum: u8) returns (valid: bool)
    ensures valid <==> HeaderChecksum(header) == checksum
  {
    var calculated: u8 := 0;
    for i := 0 to |header|
      invariant calculated == HeaderChecksum(header[..i])
    {
      assert header[..i + 1][..i] == header[..i];
      calculated := (calculated - header[i]) % 0x100;
      calculated := (calculated - 1) % 0x100;
    }
    assert header[..|header|] == header;
    valid := calculated == checksum;
  }

  /** The accumulator in closed form: minus (sum of the bytes plus their
      count), modulo 256. */
  lemma {:induction false} HeaderChecksumClosedForm(bytes: seq<u8>)
    ensures HeaderChecksum(bytes) == (-(Sum(bytes) + |bytes|)) % 0x100
    decreases |bytes|
  {
    if |bytes| > 0 {
      var init := bytes[..|bytes| - 1];
      HeaderChecksumClosedForm(init);
      ModSubtract(-(Sum(init) + |init|), bytes[|bytes| - 1] as int + 1);
    }
  }

  lemma ModSubtract(x: int, y: int)
    ensures (x % 0x100 - y) % 0x100 == (x - y) % 0x100
  {
  }

  /** A header is accepted exactly when its bytes, their count and the
      stored checksum add up to a multiple of 256; for the 25 header bytes
      0x134..=0x14C the stored byte must be -(sum + 25) mod 256. */
  lemma ChecksumAccepts(header: seq<u8>, checksum: u8)
    ensures HeaderChecksum(header) == checksum <==> (Sum(header) + |header| + checksum) % 0x100 == 0
  {
    HeaderChecksumClosedForm(header);
  }

  /** The sum after one byte is replaced. */
  lemma {:induction false} SumReplace(bytes: seq<u8>, i: nat, b: u8)
    requires i < |bytes|
    ensures Sum(bytes[i := b]) == Sum(bytes) - bytes[i] + b
    decreases |bytes|
  {
    var n := |bytes| - 1;
    if i == n {
      assert bytes[i := b][..n] == bytes[..n];
    } else {
      assert bytes[i := b][..n] == bytes[..n][i := b];
      SumReplace(bytes[..n], i, b);
    }
  }

  /** The checksum catches every single-byte corruption of the header. */
  lemma ChecksumDetectsOneByteChange(header: seq<u8>, i: nat, b: u8)
    requires i < |header| && b != header[i]
    ensures HeaderChecksum(header[i := b]) != HeaderChecksum(header)
  {
    HeaderChecksumClosedForm(header);
    HeaderChecksumClosedForm(header[i := b]);
    SumReplace(header, i, b);
    var x := -(Sum(header) + |header|);
    var d := header[i] - b;
    assert -(Sum(header[i := b]) + |header|) == x + d;
    ModShiftDiffers(x, d);
  }

  /** Adding a non-zero amount smaller than 256 in magnitude changes a
      value modulo 256. */
  lemma ModShiftDiffers(x: int, d: int)
    requires d != 0 && -0x100 < d < 0x100
    ensures (x + d) % 0x100 != x % 0x100
  {
  }

  // ---------------------------------------------------------------------
  // Logo and header fields

  /** validate_rom: the 48 bytes at 0x104 are the logo. The slice in
      validate_rom panics on a ROM too short for it, hence the precondition; the
      parse only asks once the ROM is longer than 0x150. */
  function ValidateRom(rom: seq<u8>): (valid: bool)
    requires |rom| >= LogoEnd
    ensures valid <==> forall i :: 0 <= i < |Nintendo| ==> rom[LogoStart + i] == Nintendo[i]
  {
    assert |rom[LogoStart..LogoEnd]| == |Nintendo|;
    rom[LogoStart..LogoEnd] == Nintendo
  }

  /** The CGB flag at 0x143. */
  function DecodeCgb(flag: u8): (mode: CgbMode)
    ensures mode.Color? <==> flag == 0x80 || flag == 0xC0
    ensures mode.Color? ==> (mode.exclusive <==> flag == 0xC0)
  {
    match flag
    case 0x80 => Color(false)
    case 0xC0 => Color(true)
    case _ => Monochrome
  }

  /** `2 * (1 << code)` in u16: the shift panics from 16 on and the
      product overflows at 15, so only codes up to 14 give a count, and
      that count is 2^(code + 1). */
  function RomBanks(code: u8): (banks: Option<u16>)
    ensures banks.Some? <==> code <= 14
    ensures banks.Some? ==> banks.value == Pow2(code + 1)
  {
    if code >= 16 then None
    else
      var shifted := Shl(1, code);
      ShlIsMul(1, code);
      RomBanksBound(code);
      if 2 * shifted > 0xFFFF then None else Some(2 * shifted)
  }

  lemma RomBanksBound(code: nat)
    ensures code <= 14 ==> 2 * Pow2(code) <= 0x8000
    ensures code >= 15 ==> 2 * Pow2(code) >= 0x1_0000
  {
    assert Pow2(14) == 0x4000;
    assert Pow2(15) == 0x8000;
    if code <= 14 {
      Pow2Monotone(code, 14);
    } else {
      Pow2Monotone(15, code);
    }
  }

  /** The RAM-size code at 0x149 as a bank count: 1, 3, 4 and 5 give 1, 4,
      16 and 8; every other code gives none. */
  function MemBanks(code: u8): (banks: u16)
    ensures banks in {0, 1, 4, 8, 16}
    ensures banks != 0 <==> code in {1, 3, 4, 5}
    ensures code == 1 ==> banks == 1
    ensures code == 3 ==> banks == 4
    ensures code == 4 ==> banks == 16
    ensures code == 5 ==> banks == 8
  {
    match code
    case 0x0 => 0
    case 0x1 => 1
    case 0x3 => 4
    case 0x4 => 16
    case 0x5 => 8
    case _ => 0
  }

  /** The two bytes at 0x14E as one big-endian number. */
  function RomChecksum(hi: u8, lo: u8): (sum: u16)
    ensures sum / 0x100 == hi && sum % 0x100 == lo
  {
    ReadU16(lo, hi)
  }

  /** parse_rom_header without the file read: the length check, the logo,
      the fields, then the header checksum; the first failing check is the
      reason. */
  method ParseRomHeader(rom: seq<u8>) returns (r: Header)
    ensures r == Rejected(TooShort) <==> |rom| <= HeaderSize
    ensures r == Rejected(NoLogo) <==> |rom| > HeaderSize && !ValidateRom(rom)
    ensures r == Rejected(RomSizeOverflow) <==>
      |rom| > HeaderSize && ValidateRom(rom) && rom[RomBanksAddr] > 14
    ensures r.Accepted? <==>
      |rom| > HeaderSize && ValidateRom(rom) && rom[RomBanksAddr] <= 14 &&
      (Sum(rom[HeaderStart..HeaderEnd]) + 25 + rom[HeaderChecksumAddr]) % 0x100 == 0
    ensures r.Accepted? ==>
      var info := r.info;
      info.title == rom[HeaderStart..TitleEnd] &&
      info.cgb == DecodeCgb(rom[CgbFlagAddr]) &&
      (info.sgb <==> rom[SgbFlagAddr] == 0x03) &&
      info.cartridgeType == rom[CartridgeTypeAddr] &&
      info.romBanks == Pow2(rom[RomBanksAddr] + 1) &&
      info.memBanks == MemBanks(rom[MemBanksAddr]) &&
      info.headerChecksum == rom[HeaderChecksumAddr] &&
      info.romChecksum == rom[RomChecksumAddr] as int * 0x100 + rom[RomChecksumAddr + 1] as int
  {
    if |rom| <= HeaderSize {
      return Rejected(TooShort);
    }
    if !ValidateRom(rom) {
      return Rejected(NoLogo);
    }
    var title := rom[HeaderStart..TitleEnd];
    var cgb := DecodeCgb(rom[CgbFlagAddr]);
    var sgb := rom[SgbFlagAddr] == 0x03;
    var cartridgeType := rom[CartridgeTypeAddr];
    var romBanks := RomBanks(rom[RomBanksAddr]);
    if romBanks.None? {
      return Rejected(RomSizeOverflow);
    }
    var memBanks := MemBanks(rom[MemBanksAddr]);
    var headerChecksum := rom[HeaderChecksumAddr];
    var header := rom[HeaderStart..HeaderEnd];
    var valid := ValidateHeaderChecksum(header, headerChecksum);
    ChecksumAccepts(header, headerChecksum);
    if !valid {
      return Rejected(BadHeaderChecksum);
    }
    var romChecksum := RomChecksum(rom[RomChecksumAddr], rom[RomChecksumAddr + 1]);
    r := Accepted(RomInfo(title, cgb, sgb, cartridgeType, romBanks.value, memBanks, headerChecksum, romChecksum));
  }
}
