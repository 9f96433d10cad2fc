/** The memory map of src/mem/map.rs: every 16-bit address is decoded onto
    one of the banked buffers (ROM, video RAM, external RAM, work RAM and
    its echo, OAM, I/O registers, high RAM) or the interrupt-enable byte,
    following the "Memory Map" section of the Pan Docs.

    The map is first described as a value (`Mem`), with the decoding given
    once as `CellOf`; `MemoryMap` is the object the emulator updates in
    place, and its `Read` and `Write` are proved to agree with the value
    model. */
module Memory {
  import opened Errors
  import opened Alu

  datatype Mem = Mem(
    romBanks: seq<seq<u8>>, activeRomBank: nat,
    vram: seq<seq<u8>>, activeVram: nat,
    eram: seq<seq<u8>>, activeEram: nat,
    wram: seq<seq<u8>>, activeWram: nat,
    oam: seq<u8>, io: seq<u8>, hram: seq<u8>,
    ie: u8)
  {
    /** The indexing `rom_banks[0]`, `wram[0]` and `xs[active_x]` does not
        panic. */
    predicate Valid() {
      activeRomBank < |romBanks| && activeVram < |vram| &&
      activeEram < |eram| && activeWram < |wram|
    }
  }

  /** The arms of the address match, in order. */
  datatype Region =
    | RomBank0 | RomBankN | VideoRam | ExternalRam | WorkRam0 | WorkRamN
    | Echo0 | EchoN | Oam | Unusable | IoRegisters | HighRam | InterruptEnable

  /** Inclusive address bounds of each arm. */
  function First(r: Region): u16 {
    match r
    case RomBank0 => 0x0000
    case RomBankN => 0x4000
    case VideoRam => 0x8000
    case ExternalRam => 0xA000
    case WorkRam0 => 0xC000
    case WorkRamN => 0xD000
    case Echo0 => 0xE000
    case EchoN => 0xF000
    case Oam => 0xFE00
    case Unusable => 0xFEA0
    case IoRegisters => 0xFF00
    case HighRam => 0xFF80
    case InterruptEnable => 0xFFFF
  }

  function Last(r: Region): u16 {
    match r
    case RomBank0 => 0x3FFF
    case RomBankN => 0x7FFF
    case VideoRam => 0x9FFF
    case ExternalRam => 0xBFFF
    case WorkRam0 => 0xCFFF
    case WorkRamN => 0xDFFF
    case Echo0 => 0xEFFF
    case EchoN => 0xFDFF
    case Oam => 0xFE9F
    case Unusable => 0xFEFF
    case IoRegisters => 0xFF7F
    case HighRam => 0xFFFE
    case InterruptEnable => 0xFFFF
  }

  /** The arm an address falls into. */
  function RegionOf(addr: u16): Region {
    if addr <= 0x3FFF then RomBank0
    else if addr <= 0x7FFF then RomBankN
    else if addr <= 0x9FFF then VideoRam
    else if addr <= 0xBFFF then ExternalRam
    else if addr <= 0xCFFF then WorkRam0
    else if addr <= 0xDFFF then WorkRamN
    else if addr <= 0xEFFF then Echo0
    else if addr <= 0xFDFF then EchoN
    else if addr <= 0xFE9F then Oam
    else if addr <= 0xFEFF then Unusable
    else if addr <= 0xFF7F then IoRegisters
    else if addr <= 0xFFFE then HighRam
    else InterruptEnable
  }

  /** A backing byte: a bank and an offset in it, a fixed buffer and an
      offset, the IE register, or the unusable range (which has none). */
  datatype Cell =
    | RomCell(bank: nat, offset: nat)
    | VramCell(bank: nat, offset: nat)
    | EramCell(bank: nat, offset: nat)
    | WramCell(bank: nat, offset: nat)
    | OamCell(offset: nat)
    | IoCell(offset: nat)
    | HramCell(offset: nat)
    | IeCell
    | NoCell

  /** The byte an address designates: its arm's buffer, at the address minus
      the arm's base (the echo arms subtract their own base, so they alias
      work RAM). */
  function CellOf(m: Mem, addr: u16): Cell {
    var offset := addr - First(RegionOf(addr));
    match RegionOf(addr)
    case RomBank0 => RomCell(0, offset)
    case RomBankN => RomCell(m.activeRomBank, offset)
    case VideoRam => VramCell(m.activeVram, offset)
    case ExternalRam => EramCell(m.activeEram, offset)
    case WorkRam0 => WramCell(0, offset)
    case WorkRamN => WramCell(m.activeWram, offset)
    case Echo0 => WramCell(0, offset)
    case EchoN => WramCell(m.activeWram, offset)
    case Oam => OamCell(offset)
    case Unusable => NoCell
    case IoRegisters => IoCell(offset)
    case HighRam => HramCell(offset)
    case InterruptEnable => IeCell
  }

  function Lookup(buffer: seq<u8>, offset: nat): Option<u8> {
    if offset < |buffer| then Some(buffer[offset]) else None
  }

  /** `.get(offset)` on the cell's buffer; the unusable range yields 0. */
  function Load(m: Mem, cell: Cell): Option<u8>
    requires m.Valid() && BankOk(m, cell)
  {
    match cell
    case RomCell(bank, offset) => Lookup(m.romBanks[bank], offset)
    case VramCell(bank, offset) => Lookup(m.vram[bank], offset)
    case EramCell(bank, offset) => Lookup(m.eram[bank], offset)
    case WramCell(bank, offset) => Lookup(m.wram[bank], offset)
    case OamCell(offset) => Lookup(m.oam, offset)
    case IoCell(offset) => Lookup(m.io, offset)
    case HramCell(offset) => Lookup(m.hram, offset)
    case IeCell => Some(m.ie)
    case NoCell => Some(0)
  }

  /** The bank index of a banked cell exists. */
  predicate BankOk(m: Mem, cell: Cell) {
    match cell
    case RomCell(bank, _) => bank < |m.romBanks|
    case VramCell(bank, _) => bank < |m.vram|
    case EramCell(bank, _) => bank < |m.eram|
    case WramCell(bank, _) => bank < |m.wram|
    case _ => true
  }

  lemma CellOfBankOk(m: Mem, addr: u16)
    requires m.Valid()
    ensures BankOk(m, CellOf(m, addr))
  {
  }

  /** MemoryMap::read. */
  function MemRead(m: Mem, addr: u16): Result<u8>
    requires m.Valid()
  {
    CellOfBankOk(m, addr);
    match Load(m, CellOf(m, addr))
    case Some(v) => Ok(v)
    case None => Err(OutOfBounds(addr))
  }

  /** The buffer with one cell replaced (the cell exists). */
  function Store(m: Mem, cell: Cell, value: u8): Mem
    requires m.Valid() && BankOk(m, cell) && Load(m, cell).Some?
    requires !cell.RomCell? && !cell.NoCell?
  {
    match cell
    case VramCell(bank, offset) => m.(vram := ReplaceIn(m.vram, bank, offset, value))
    case EramCell(bank, offset) => m.(eram := ReplaceIn(m.eram, bank, offset, value))
    case WramCell(bank, offset) => m.(wram := ReplaceIn(m.wram, bank, offset, value))
    case OamCell(offset) => m.(oam := Replace(m.oam, offset, value))
    case IoCell(offset) => m.(io := Replace(m.io, offset, value))
    case HramCell(offset) => m.(hram := Replace(m.hram, offset, value))
    case IeCell => m.(ie := value)
  }

  function Replace(buffer: seq<u8>, offset: nat, value: u8): seq<u8>
    requires offset < |buffer|
  {
    buffer[offset := value]
  }

  function ReplaceIn(banks: seq<seq<u8>>, bank: nat, offset: nat, value: u8): seq<seq<u8>>
    requires bank < |banks| && offset < |banks[bank]|
  {
    banks[bank := Replace(banks[bank], offset, value)]
  }

  /** MemoryMap::write: ROM is read-only, the unusable range is prohibited,
      a missing cell is out of bounds; otherwise the designated cell is
      replaced. A failed write leaves the map as it was. */
  function MemWrite(m: Mem, addr: u16, value: u8): (Result<()>, Mem)
    requires m.Valid()
  {
    CellOfBankOk(m, addr);
    var cell := CellOf(m, addr);
    match cell
    case RomCell(bank, _) => (Err(ReadOnly(addr, bank)), m)
    case NoCell => (Err(Prohibited(addr)), m)
    case _ =>
      if Load(m, cell).Some? then (Ok(()), Store(m, cell, value))
      else (Err(OutOfBounds(addr)), m)
  }

  /** Two maps hold the same cartridge ROM and select the same banks. */
  predicate SameLayout(m: Mem, n: Mem) {
    n.romBanks == m.romBanks && n.activeRomBank == m.activeRomBank &&
    n.activeVram == m.activeVram && n.activeEram == m.activeEram &&
    n.activeWram == m.activeWram
  }

  // ---------------------------------------------------------------------
  // Properties of the decoding.

  /** The arms partition the address space: an address lies within an arm's
      bounds exactly when that arm is the one it decodes to, so no address
      reaches the catch-all `_ => None`. */
  lemma RegionsPartition(addr: u16, r: Region)
    ensures First(r) <= addr <= Last(r) <==> r == RegionOf(addr)
  {
  }

  /** A write keeps the map well formed, the ROM and the bank selection as
      they were, hence the decoding of every address. */
  lemma WriteKeepsShape(m: Mem, addr: u16, value: u8, other: u16)
    requires m.Valid()
    ensures MemWrite(m, addr, value).1.Valid()
    ensures CellOf(MemWrite(m, addr, value).1, other) == CellOf(m, other)
    ensures MemWrite(m, addr, value).0.Err? ==> MemWrite(m, addr, value).1 == m
    ensures SameLayout(m, MemWrite(m, addr, value).1)
  {
  }

  /** ROM, both the fixed and the switchable bank, rejects every write and
      is left unchanged. */
  lemma RomIsReadOnly(m: Mem, addr: u16, value: u8)
    requires m.Valid() && addr <= 0x7FFF
    ensures MemWrite(m, addr, value) ==
      (Err(ReadOnly(addr, if addr <= 0x3FFF then 0 else m.activeRomBank)), m)
  {
  }

  /** 0xFEA0..0xFEFF reads as 0 and rejects writes. */
  lemma UnusableRange(m: Mem, addr: u16, value: u8)
    requires m.Valid() && 0xFEA0 <= addr <= 0xFEFF
    ensures MemRead(m, addr) == Ok(0)
    ensures MemWrite(m, addr, value) == (Err(Prohibited(addr)), m)
  {
  }

  /** 0xE000..0xEFFF mirrors 0xC000..0xCFFF and 0xF000..0xFDFF mirrors
      0xD000..0xDDFF: the same cell, hence the same byte. */
  lemma EchoMirrorsWorkRam(m: Mem, k: nat)
    requires m.Valid() && k < 0x1000
    ensures CellOf(m, 0xE000 + k) == CellOf(m, 0xC000 + k)
    ensures MemRead(m, 0xE000 + k).Ok? == MemRead(m, 0xC000 + k).Ok?
    ensures MemRead(m, 0xE000 + k).Ok? ==> MemRead(m, 0xE000 + k) == MemRead(m, 0xC000 + k)
    ensures k < 0xE00 ==> CellOf(m, 0xF000 + k) == CellOf(m, 0xD000 + k)
    ensures k < 0xE00 ==> MemRead(m, 0xF000 + k).Ok? == MemRead(m, 0xD000 + k).Ok?
    ensures k < 0xE00 && MemRead(m, 0xF000 + k).Ok? ==> MemRead(m, 0xF000 + k) == MemRead(m, 0xD000 + k)
  {
  }

  /** The switchable windows read the active bank at the window offset. */
  lemma WindowsReadActiveBank(m: Mem, addr: u16)
    requires m.Valid()
    ensures 0x4000 <= addr <= 0x7FFF ==>
      MemRead(m, addr) == FromBuffer(m.romBanks[m.activeRomBank], addr - 0x4000, addr)
    ensures 0x8000 <= addr <= 0x9FFF ==>
      MemRead(m, addr) == FromBuffer(m.vram[m.activeVram], addr - 0x8000, addr)
    ensures 0xA000 <= addr <= 0xBFFF ==>
      MemRead(m, addr) == FromBuffer(m.eram[m.activeEram], addr - 0xA000, addr)
    ensures 0xD000 <= addr <= 0xDFFF ==>
      MemRead(m, addr) == FromBuffer(m.wram[m.activeWram], addr - 0xD000, addr)
  {
  }

  /** The byte at `offset` of a buffer, or the out-of-bounds error past its end. */
  function FromBuffer(buffer: seq<u8>, offset: nat, addr: u16): Result<u8> {
    if offset < |buffer| then Ok(buffer[offset]) else Err(OutOfBounds(addr))
  }

  /** After a successful write, reading the same address gives the value. */
  lemma ReadAfterWrite(m: Mem, addr: u16, value: u8)
    requires m.Valid() && MemWrite(m, addr, value).0.Ok?
    ensures MemWrite(m, addr, value).1.Valid()
    ensures MemRead(MemWrite(m, addr, value).1, addr) == Ok(value)
  {
  }

  /** A successful write changes one backing cell: an address that decodes to
      the same cell (itself or its echo) reads the value, every other address
      reads what it read before. */
  lemma WriteChangesOneCell(m: Mem, addr: u16, value: u8, other: u16)
    requires m.Valid() && MemWrite(m, addr, value).0.Ok?
    ensures MemWrite(m, addr, value).1.Valid()
    ensures CellOf(m, other) == CellOf(m, addr) ==> MemRead(MemWrite(m, addr, value).1, other) == Ok(value)
    ensures CellOf(m, other) != CellOf(m, addr) ==> MemRead(MemWrite(m, addr, value).1, other) == MemRead(m, other)
  {
    var m' := MemWrite(m, addr, value).1;
    CellOfBankOk(m, other);
    if CellOf(m, other) != CellOf(m, addr) {
      assert Load(m', CellOf(m', other)) == Load(m, CellOf(m, other));
    }
  }

  /** Above ROM and outside the unusable range, an address accepts a write
      exactly when it can be read. */
  lemma WritableWhereReadable(m: Mem, addr: u16, value: u8)
    requires m.Valid() && 0x8000 <= addr && !(0xFEA0 <= addr <= 0xFEFF)
    ensures MemWrite(m, addr, value).0.Ok? <==> MemRead(m, addr).Ok?
  {
    CellOfBankOk(m, addr);
  }

  /** A read fails only past the end of the designated buffer: never in the
      unusable range or at IE. */
  lemma ReadFailsOnlyPastBufferEnd(m: Mem, addr: u16)
    requires m.Valid()
    ensures MemRead(m, addr).Err? <==> CellOf(m, addr) !in {IeCell, NoCell} && Load(m, CellOf(m, addr)).None?
    ensures MemRead(m, addr).Err? ==> MemRead(m, addr).error == OutOfBounds(addr)
  {
    CellOfBankOk(m, addr);
  }

  // ---------------------------------------------------------------------

  /** The memory map as an object: ROM banks and the bank selection are
      fixed, the RAM bank vectors are replaced on write, and the fixed-size
      OAM, I/O and high-RAM buffers are arrays written in place. */
  class MemoryMap {
    const romBanks: seq<seq<u8>>
    const activeRomBank: nat
    var vram: seq<seq<u8>>
    const activeVram: nat
    var eram: seq<seq<u8>>
    const activeEram: nat
    var wram: seq<seq<u8>>
    const activeWram: nat
    const oam: array<u8>
    const io: array<u8>
    const hram: array<u8>
    var ie: u8

    ghost predicate Valid()
      reads this
    {
      activeRomBank < |romBanks| && activeVram < |vram| &&
      activeEram < |eram| && activeWram < |wram| &&
      oam != io && oam != hram && io != hram
    }

    /** The map as a value. */
    function Value(): Mem
      reads this, oam, io, hram
    {
      Mem(romBanks, activeRomBank, vram, activeVram, eram, activeEram,
          wram, activeWram, oam[..], io[..], hram[..], ie)
    }

    /** Builds a map over given buffers (the ROM loading that chooses them
        is not part of this model). */
    constructor (romBanks: seq<seq<u8>>, activeRomBank: nat,
                 vram: seq<seq<u8>>, activeVram: nat,
                 eram: seq<seq<u8>>, activeEram: nat,
                 wram: seq<seq<u8>>, activeWram: nat,
                 oam: seq<u8>, io: seq<u8>, hram: seq<u8>, ie: u8)
      requires Mem(romBanks, activeRomBank, vram, activeVram, eram, activeEram,
                   wram, activeWram, oam, io, hram, ie).Valid()
      ensures Valid() && fresh(this.oam) && fresh(this.io) && fresh(this.hram)
      ensures Value() == Mem(romBanks, activeRomBank, vram, activeVram, eram, activeEram,
                             wram, activeWram, oam, io, hram, ie)
    {
      this.romBanks := romBanks;
      this.activeRomBank := activeRomBank;
      this.vram := vram;
      this.activeVram := activeVram;
      this.eram := eram;
      this.activeEram := activeEram;
      this.wram := wram;
      this.activeWram := activeWram;
      this.oam := new u8[|oam|](i requires 0 <= i < |oam| => oam[i]);
      this.io := new u8[|io|](i requires 0 <= i < |io| => io[i]);
      this.hram := new u8[|hram|](i requires 0 <= i < |hram| => hram[i]);
      this.ie := ie;
    }

    /** `.get(offset)` on an array: the byte there, or the out-of-bounds
        error past the end. */
    static function Get(buffer: array<u8>, offset: nat, addr: u16): (r: Result<u8>)
      reads buffer
      ensures r.Ok? <==> offset < buffer.Length
      ensures r.Ok? ==> r.value == buffer[offset]
      ensures r.Err? ==> r.error == OutOfBounds(addr)
      ensures r == FromBuffer(buffer[..], offset, addr)
    {
      if offset < buffer.Length then Ok(buffer[offset]) else Err(OutOfBounds(addr))
    }

    /** read: the address match of the source, arm by arm. */
    function Read(addr: u16): (r: Result<u8>)
      reads this, oam, io, hram
      requires Valid()
      ensures r == MemRead(Value(), addr)
    {
      if addr <= 0x3FFF then FromBuffer(romBanks[0], addr, addr)
      else if addr <= 0x7FFF then FromBuffer(romBanks[activeRomBank], addr - 0x4000, addr)
      else if addr <= 0x9FFF then FromBuffer(vram[activeVram], addr - 0x8000, addr)
      else if addr <= 0xBFFF then FromBuffer(eram[activeEram], addr - 0xA000, addr)
      else if addr <= 0xCFFF then FromBuffer(wram[0], addr - 0xC000, addr)
      else if addr <= 0xDFFF then FromBuffer(wram[activeWram], addr - 0xD000, addr)
      else if addr <= 0xEFFF then FromBuffer(wram[0], addr - 0xE000, addr)
      else if addr <= 0xFDFF then FromBuffer(wram[activeWram], addr - 0xF000, addr)
      else if addr <= 0xFE9F then Get(oam, addr - 0xFE00, addr)
      else if addr <= 0xFEFF then Ok(0)
      else if addr <= 0xFF7F then Get(io, addr - 0xFF00, addr)
      else if addr <= 0xFFFE then Get(hram, addr - 0xFF80, addr)
      else Ok(ie)
    }

    /** Replaces byte `offset` of bank `bank` of a bank vector, if it exists:
        the byte reads back as `value`, and every other byte of every bank
        is kept. */
    static function Put(banks: seq<seq<u8>>, bank: nat, offset: nat, value: u8): (r: Option<seq<seq<u8>>>)
      requires bank < |banks|
      ensures r.Some? <==> offset < |banks[bank]|
      ensures r.Some? ==> |r.value| == |banks| && |r.value[bank]| == |banks[bank]| && r.value[bank][offset] == value
      ensures r.Some? ==> forall j :: 0 <= j < |banks| && j != bank ==> r.value[j] == banks[j]
      ensures r.Some? ==> forall k :: 0 <= k < |banks[bank]| && k != offset ==> r.value[bank][k] == banks[bank][k]
      ensures r.Some? ==> r.value == ReplaceIn(banks, bank, offset, value)
    {
      if offset < |banks[bank]| then Some(ReplaceIn(banks, bank, offset, value)) else None
    }

    /** write: the address match of the source, arm by arm. */
    method Write(addr: u16, value: u8) returns (r: Result<()>)
      requires Valid()
      modifies this, oam, io, hram
      ensures Valid()
      ensures (r, Value()) == MemWrite(old(Value()), addr, value)
    {
      if addr <= 0x3FFF {
        return Err(ReadOnly(addr, 0));
      } else if addr <= 0x7FFF {
        return Err(ReadOnly(addr, activeRomBank));
      } else if 0xFEA0 <= addr <= 0xFEFF {
        return Err(Prohibited(addr));
      }
      var written := false;
      if addr <= 0x9FFF {
        var banks := Put(vram, activeVram, addr - 0x8000, value);
        if banks.Some? { vram := banks.value; written := true; }
      } else if addr <= 0xBFFF {
        var banks := Put(eram, activeEram, addr - 0xA000, value);
        if banks.Some? { eram := banks.value; written := true; }
      } else if addr <= 0xCFFF {
        var banks := Put(wram, 0, addr - 0xC000, value);
        if banks.Some? { wram := banks.value; written := true; }
      } else if addr <= 0xDFFF {
        var banks := Put(wram, activeWram, addr - 0xD000, value);
        if banks.Some? { wram := banks.value; written := true; }
      } else if addr <= 0xEFFF {
        var banks := Put(wram, 0, addr - 0xE000, value);
        if banks.Some? { wram := banks.value; written := true; }
      } else if addr <= 0xFDFF {
        var banks := Put(wram, activeWram, addr - 0xF000, value);
        if banks.Some? { wram := banks.value; written := true; }
      } else if addr <= 0xFE9F {
        if addr - 0xFE00 < oam.Length { oam[addr - 0xFE00] := value; written := true; }
      } else if addr <= 0xFF7F {
        if addr - 0xFF00 < io.Length { io[addr - 0xFF00] := value; written := true; }
      } else if addr <= 0xFFFE {
        if addr - 0xFF80 < hram.Length { hram[addr - 0xFF80] := value; written := true; }
      } else {
        ie := value;
        written := true;
      }
      r := if written then Ok(()) else Err(OutOfBounds(addr));
    }
  }
}
