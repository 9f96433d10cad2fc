# RustGB execution core in Dafny

This project models the execution core of RustGB, a Game Boy (SM83) emulator written in Rust, and proves properties of the model. It covers:

- **Byte and bit-field utilities** (`src/cpu/alu/alu.rs` and its older copy `src/cpu/alu.rs`): `read_u16`, `write_u16`, `read_bits` and `write_bits`. These are in module `Alu`. Rust's shifts, `as u8` and the bitwise operators are defined bit by bit there.
- **The cycle counter** (`src/cpu/clock.rs`): module `Cycles`. It has a `Counters` value and a `Clock` class whose `IncCycle` and `Tick` advance the M-cycle and T-cycle counters in place.
- **The memory map** (`src/mem/map.rs`): module `Memory`.
  - A value `Mem` with one address decoder, `CellOf`, and the read and write functions `MemRead` and `MemWrite`.
  - A `MemoryMap` class with the map's fields. Its banked RAM is a sequence of sequences that `Write` reassigns. OAM, I/O and high RAM are arrays updated in place.
  - `Read` and `Write` are proved to compute `MemRead` and `MemWrite`.
- **The register file as its callers use it** (module `Registers`): `match_r8` (which also stands in for the earliest revision's `match_register`), `set_flag`, `set_all_flags`, `read_flag` and `match_condition`.
- **Operands** (`src/cpu/operands.rs`, module `Operands`): the `R8` descriptor, the value-carrying `R8` of the intermediate revision, and the 16-bit pairs `R16::new`, `read` and `write`.
- **Fetch, decode and execute** for three revisions of the execution unit, in module `Semantics`:
  - **Earliest** (`src/cpu/clu.rs`): NOP, jumps and loads. Memory accesses are untimed and the unit ticks the clock explicitly.
  - **Intermediate** (`src/cpu/clu/clu.rs` with `src/cpu/handlers/arithmetic.rs`): operands carry the value read when they are decoded. Adds ADD/ADC, SUB/SBC, AND, XOR, OR, CP and the illegal opcodes.
  - **Latest** (`src/cpu/cpu_context.rs` with `handlers/loads.rs` and `handlers/jumps.rs`): reads and writes through the context tick once each. Adds INC/DEC.

  Each handler is a function from a machine (registers, memory, clock) to its result and the machine after it. A failing handler therefore shows how far it got.
- **The imperative unit** (module `Cpu`): a `Cpu` class holding the registers, a `MemoryMap` and a `Clock`, as `CpuContext` and `CLU` do. Every method is proved to leave exactly the state the matching `Semantics` function describes. The `Run` loop keeps that relation as its invariant.
- **Facts about the handlers and the dispatch** (modules `HandlerFacts` and `DispatchFacts`):
  - the flag formulas and the cycle costs;
  - that the three load implementations agree;
  - that a run only ever advances the clock;
  - that the loop stops only on an error.
- **The repository's tests as theorems** (module `Scenarios`). Each is stated for every machine holding the test's program and values.
- **The cartridge header parser** (`src/rom/rom_parser.rs`, module `RomParser`): logo check, CGB/SGB flags, ROM and RAM bank counts, header checksum and global checksum. It follows the Pan Docs section "The Cartridge Header".

Errors that the source reports as formatted strings are constructors of `Errors.Error`, carrying the values the message prints. A Rust panic (integer overflow in a debug build, a shift by 8 or more, an out-of-range index) is either a precondition or an explicit outcome:

- In `Run`, a step that would panic stops the run with `Panicked`.
- In `ParseRomHeader`, a failed `assert!` becomes `Rejected(reason)`.

`set_flag` and the register file belong to a register module that is not part of this model; `src/cpu/reg_file.rs` is an unfinished stub. The model follows the call sites: F holds Z, N, H and C in bits 7 to 4. `set_flag` replaces the flag's bit and keeps the other seven. `set_all_flags([z, n, h, c])` sets the four flags in that order. `match_condition` reads codes 0 to 3 as NZ, Z, NC and C.

## Model

| member | source | states |
|---|---|---|
| Alu.ReadU16 | src/cpu/alu/alu.rs:1-3 | `(hi << 8) \| lo` is hi * 256 + lo |
| Alu.WriteU16 | src/cpu/alu/alu.rs:5-8 | the bytes stored are value mod 256 and value / 256, and read_u16 of them gives the value back |
| Alu.SplitCompose | src/cpu/alu/alu.rs:1-8 | writing the u16 that read_u16 composed returns the same low and high bytes |
| Alu.ComposeSplit | src/cpu/alu.rs:1-7 | read_u16 of the bytes write_u16 stores is the original value (the older copy is the same text) |
| Alu.ReadBits | src/cpu/alu/alu.rs:10-18 | the loop returns the `length`-bit field of num at bit `index` (num / 2^index mod 2^length), which is below 2^length |
| Alu.FieldDependsOnlyOnFieldBits | src/cpu/alu/alu.rs:10-18 | read_bits looks only at bits index..index+length: bytes that agree there give the same field |
| Alu.WriteBits | src/cpu/alu/alu.rs:20-30 | fails with the overflow error exactly when index + length > 8, leaving the target; otherwise stores `(target & !mask) \| (bits << index)` in u8 |
| Alu.BitOfInsert | src/cpu/alu/alu.rs:26-27 | for a value that fits, each bit of the stored byte is the value's bit inside the field and the target's bit outside it |
| Alu.InsertKeepsOtherBits | src/cpu/alu/alu.rs:26-27 | write_bits with a fitting value changes no bit outside the field |
| Alu.ReadBackInsert | src/cpu/alu/alu.rs:10-30 | read_bits of the field just written by write_bits returns the bits written |
| Alu.InsertOwnField | src/cpu/alu/alu.rs:10-30 | writing back the field just read leaves the byte unchanged |
| Alu.UnmaskedBitsSpill | src/cpu/alu/alu.rs:27 | `bits << index` is not masked: writing 3 into the one-bit field at bit 0 of 0 also sets bit 1 |
| Alu.And8Bits | src/cpu/handlers/arithmetic.rs:101 | bit k of `a & src` is set exactly when bit k is set in both |
| Alu.Xor8Bits | src/cpu/handlers/arithmetic.rs:125 | bit k of `a ^ src` is set exactly when the bits differ |
| Alu.Or8Bits | src/cpu/handlers/arithmetic.rs:149 | bit k of `a \| src` is set exactly when either bit is set |
| Alu.LowNibbleOfAnd | src/cpu/handlers/arithmetic.rs:34 | `x & 0xF` is x mod 16, the nibble the half-carry tests compare |
| Cycles.Counters.Inc | src/cpu/clock.rs:8-11 | inc_cycle(count) adds count M-cycles and 4 * count T-cycles |
| Cycles.IncKeepsConsistent | src/cpu/clock.rs:8-11 | T-cycles stay four times M-cycles after every increment |
| Cycles.IncAdds | src/cpu/clock.rs:8-11 | two increments add up to one increment by their sum |
| Cycles.Clock.constructor | src/cpu/clock.rs:1-5 | a fresh clock has both counters at 0, which is consistent |
| Cycles.Clock.IncCycle | src/cpu/clock.rs:8-11 | the method adds count and 4 * count to the fields, in place |
| Cycles.Clock.Tick | src/cpu/clu/clu.rs:25 | a tick is one M-cycle: inc_cycle(1) |
| Memory.RegionsPartition | src/mem/map.rs:20-35 | every address lies in exactly one arm of the match, the arm whose bounds contain it |
| Memory.CellOfBankOk | src/mem/map.rs:21-28 | under the map's invariant, the bank indices used by the match exist |
| Memory.RomIsReadOnly | src/mem/map.rs:42-50 | a write to 0x0000..0x7FFF fails as read-only, naming bank 0 or the active ROM bank, and changes nothing |
| Memory.UnusableRange | src/mem/map.rs:58-61 | 0xFEA0..0xFEFF reads as 0 and a write there fails as prohibited, changing nothing |
| Memory.EchoMirrorsWorkRam | src/mem/map.rs:25-28 | 0xE000..0xEFFF reads as 0xC000..0xCFFF and 0xF000..0xFDFF as 0xD000..0xDDFF |
| Memory.WindowsReadActiveBank | src/mem/map.rs:22-26 | the switchable windows read the active ROM, VRAM, external RAM and WRAM bank at the window offset |
| Memory.ReadFailsOnlyPastBufferEnd | src/mem/map.rs:36-37 | a read fails exactly when the offset is past the end of the designated buffer, and the error names the address |
| Memory.WriteKeepsShape | src/mem/map.rs:39-73 | a write keeps the map well formed, the ROM and the bank selection; a failed write changes nothing |
| Memory.WritableWhereReadable | src/mem/map.rs:51-72 | above ROM and outside the unusable range, a write succeeds exactly where a read does |
| Memory.ReadAfterWrite | src/mem/map.rs:67-69 | after a successful write, reading the same address returns the value |
| Memory.WriteChangesOneCell | src/mem/map.rs:67-69 | a successful write changes only the addresses that decode to the same byte (the address and its echo) |
| Memory.MemoryMap.Put | src/mem/map.rs:51-56 | `.get_mut(offset)` on a bank exists exactly when the offset is inside the bank; storing through it makes that byte read back as the value, keeps every other byte of that bank and every other bank, and keeps the bank count and sizes |
| Memory.MemoryMap.Read | src/mem/map.rs:18-38 | the read of the map object is MemRead of its value |
| Memory.MemoryMap.Write | src/mem/map.rs:39-73 | the write updates the object in place to MemWrite of its old value, with the same result |
| Registers.FlagBit | src/cpu/handlers/arithmetic.rs:38-41 | each flag lives in one of bits 4 to 7 of F |
| Registers.SetThenMatch | src/cpu/operands.rs:33-53 | match_r8 succeeds exactly on indices 0-5 and 7; assigning a register and reading it back gives the value |
| Registers.SetR8Frame | src/cpu/operands.rs:41-46 | assigning one register leaves every other register, F, SP and PC unchanged |
| Registers.WithFlagBit | src/cpu/handlers/arithmetic.rs:38-41 | set_flag's new F has the given value at the flag's bit and the old bit everywhere else |
| Registers.SetFlagEffect | src/cpu/handlers/arithmetic.rs:38-41 | after set_flag, read_flag returns the value set; the other seven bits of F and every other register are kept |
| Registers.SetAllFlagsEffect | src/cpu/handlers/arithmetic.rs:102-103 | set_all_flags leaves Z, N, H, C as given and keeps the low nibble of F and every other register |
| Registers.SetFlagsInAddOrder | src/cpu/handlers/arithmetic.rs:37-41 | setting H, C, Z, N one at a time gives the same register file as set_all_flags([Z, N, H, C]) |
| Registers.ConditionMeaning | src/cpu/handlers/jumps.rs:19-22 | condition codes 0-3 are NZ, Z, NC, C and every other code is an error |
| Operands.R16New | src/cpu/operands.rs:81-94 | the 2-bit field selects BC, DE, HL, and for 3 SP, AF or HL by table; with a 2-bit field it never fails |
| Operands.R16WriteRead | src/cpu/operands.rs:96-114 | writing a pair and reading it returns the value written |
| Operands.R16ReadWrite | src/cpu/operands.rs:96-114 | writing back a pair's own value changes nothing |
| Operands.R16WriteFrame | src/cpu/operands.rs:106-114 | a pair write changes only its two registers (or SP): the other registers and PC are kept |
| Operands.R16ByteOrder | src/cpu/operands.rs:106-113 | B, D, H and A take the high byte and C, E, L and F the low byte |
| Semantics.Fetch | src/cpu/cpu_context.rs:83-94 | fetch advances PC by one, costs one M-cycle, always succeeds and leaves memory alone |
| Semantics.Assign | src/cpu/operands.rs:43-46 | `*match_r8(reg)? = value` succeeds exactly for a register index and changes nothing when it fails |
| Semantics.WriteMem | src/mem/map.rs:39-73 | a memory write keeps the registers, the clock, the ROM and the bank selection; a failed write changes nothing |
| HandlerFacts.R8FieldIsRegister | src/cpu/cpu_context.rs:27-33 | an r8 field is below 8, and every field but 6 names a register |
| HandlerFacts.AllFlags | src/cpu/handlers/arithmetic.rs:102-103 | set_all_flags gives the four flags as listed and changes only F |
| HandlerFacts.FetchEffect | src/cpu/cpu_context.rs:83-94 | fetch returns the byte at PC, or 0 when that read fails, with PC + 1 and one M-cycle |
| HandlerFacts.GetR8ParamEffect | src/cpu/operands.rs:15-31 | get_r8_param fetches an immediate for n8; otherwise field 6 is [HL] at HL and other fields name registers, with no cost |
| HandlerFacts.R8AccessEffect | src/cpu/operands.rs:33-53 | a register read or write costs nothing; an [HL] read or write costs one M-cycle; an immediate write does nothing |
| HandlerFacts.R8WriteThenRead | src/cpu/operands.rs:33-53 | after a successful write through an r8 operand, reading it gives the value |
| HandlerFacts.DirectOperandEffect | src/cpu/handlers/arithmetic.rs:11-25 | the add/sub operand is the fetched immediate, the byte at HL after one tick, or the register |
| HandlerFacts.LoadedParamAgrees | src/cpu/clu/clu.rs:18-36 | the value-carrying operand has the same value, error and cost as the add/sub operand block |
| HandlerFacts.LoadLatestIsEarliest | src/cpu/handlers/loads.rs:3-11 | the latest load, with ticking accesses through R8, is exactly the earliest load |
| HandlerFacts.LoadIntermediateAgrees | src/cpu/clu/clu.rs:68-84 | the intermediate load agrees with the earliest one except where its [HL] destination is read first |
| HandlerFacts.LoadEffect | src/cpu/clu.rs:39-58 | LD succeeds exactly when the source reads and an [HL] store succeeds; the destination gets the source's value, with one M-cycle per [HL] operand; a failed source read is the error |
| HandlerFacts.LoadCopies | src/cpu/handlers/loads.rs:3-11 | after LD the destination reads back the source's old value and the other registers, F, SP and PC are kept |
| HandlerFacts.RelTargetIsUnsignedSum | src/cpu/handlers/jumps.rs:9 | when the i16 sum does not overflow, the JR target is (PC + offset) mod 2^16 |
| HandlerFacts.JmpEffect | src/cpu/handlers/jumps.rs:3-28 | JP/JR never fail; taken (unconditional or condition true) PC is the target and one extra M-cycle is spent, otherwise PC is past the immediates |
| HandlerFacts.AddToAEffect | src/cpu/handlers/arithmetic.rs:34-42 | A becomes (A + y) mod 256; Z = result 0, N clear, H = nibble sum > 15, C = sum > 255; the rest is kept |
| HandlerFacts.SubFromAEffect | src/cpu/handlers/arithmetic.rs:71-79 | A becomes (A - y) mod 256; Z = result 0, N set, H = A's nibble < y's, C = A < y |
| HandlerFacts.LogicWithAEffect | src/cpu/handlers/arithmetic.rs:101-103 | A becomes A & / ^ / \| y bit by bit; flags Z, 0, 1 for AND and 0 otherwise, 0 |
| HandlerFacts.CompareWithAEffect | src/cpu/handlers/arithmetic.rs:174-178 | CP keeps A and sets Z = (A == y), N, H = borrow from bit 4, C = A < y |
| HandlerFacts.IncResultEffect | src/cpu/handlers/arithmetic.rs:188-198 | inc_r8's value is (value + delta) mod 256; the half carry for +1 is a low nibble of 0xF and for -1 a low nibble of 0 |
| HandlerFacts.AddEffect | src/cpu/handlers/arithmetic.rs:10-44 | ADD/ADC fails only when its operand fails; otherwise A and the flags are updated from the operand plus carry-in, memory untouched |
| HandlerFacts.SubEffect | src/cpu/handlers/arithmetic.rs:46-81 | SUB/SBC fails only when its operand fails; otherwise A and the flags are updated from the operand plus carry-in |
| HandlerFacts.AddOk | src/cpu/handlers/arithmetic.rs:10-44 | ADD/ADC with a readable r8 or [HL] operand updates A by that value plus the carry-in, one M-cycle for [HL] |
| HandlerFacts.SubOk | src/cpu/handlers/arithmetic.rs:46-81 | SUB/SBC with a readable r8 or [HL] operand updates A by that value plus the carry-in, one M-cycle for [HL] |
| HandlerFacts.LogicEffect | src/cpu/handlers/arithmetic.rs:84-153 | AND/XOR/OR read the same operand as add and fail exactly when it fails |
| HandlerFacts.CpEffect | src/cpu/handlers/arithmetic.rs:156-180 | CP reads the same operand as sub and only updates the flags |
| HandlerFacts.IncR8Effect | src/cpu/handlers/arithmetic.rs:183-219 | INC/DEC replaces the operand at bits 5-3 by value + delta mod 256, with three M-cycles for [HL]; flags Z, N = delta < 0, H, C kept; a failed write skips the flags |
| DispatchFacts.DecodeLoads | src/cpu/cpu_context.rs:109 | the load handler gets exactly 0x40..0x7F, in every revision |
| DispatchFacts.DecodeJumps | src/cpu/cpu_context.rs:102-108 | the opcode sets of NOP, JP, JR and JP HL, in every revision |
| DispatchFacts.DecodeAluBlock | src/cpu/cpu_context.rs:110-115 | beyond the earliest revision, 0x80..0xBF and the x6/xE immediates go to add, sub, and, xor, or, cp in blocks of eight |
| DispatchFacts.DecodeIncDec | src/cpu/cpu_context.rs:116-121 | INC is x4/xC and DEC x5/xD below 0x40, in the latest revision only |
| DispatchFacts.DecodeIllegal | src/cpu/cpu_context.rs:122-124 | the eleven illegal opcodes are an error beyond the earliest revision |
| DispatchFacts.DecodeRevisionsAgree | src/cpu/clu/clu.rs:112-127 | the revisions send every opcode they share to the same handler |
| DispatchFacts.StepNothing | src/cpu/cpu_context.rs:102 | NOP and unsupported opcodes cost only their fetch |
| DispatchFacts.StepIllegal | src/cpu/cpu_context.rs:122-124 | an illegal opcode fails with its own error right after the fetch |
| DispatchFacts.StepJumpHl | src/cpu/cpu_context.rs:105-108 | JP HL sets PC to H * 256 + L for the cost of the fetch |
| DispatchFacts.StepAdd | src/cpu/cpu_context.rs:110 | one ADD/ADC step updates A and the flags by AddToA; the clock is the fetch plus the [HL] read |
| DispatchFacts.StepSub | src/cpu/cpu_context.rs:111 | one SUB/SBC step updates A and the flags by SubFromA |
| DispatchFacts.StepIncDecRegister | src/cpu/cpu_context.rs:116-121 | INC/DEC r assigns value + delta and sets the flags, for the fetch alone |
| DispatchFacts.StepIncDecHl | src/cpu/cpu_context.rs:116-121 | INC/DEC [HL] writes value + delta back through the map, four M-cycles with the fetch |
| DispatchFacts.StepLoad | src/cpu/cpu_context.rs:109 | one LD step copies the source to the destination for the fetch plus one M-cycle per [HL] |
| DispatchFacts.StepJumpAbsolute | src/cpu/cpu_context.rs:103 | one JP step lands on the immediate when taken (four M-cycles) or after it (three) |
| DispatchFacts.AluCycles | src/cpu/handlers/arithmetic.rs:10-180 | every arithmetic handler costs its operand's cycles and nothing more |
| DispatchFacts.ExecuteCycles | src/cpu/cpu_context.rs:101-126 | every successful handler costs the cycles of a fixed table |
| DispatchFacts.StepCycleCount | src/cpu/cpu_context.rs:97-128 | a successful step costs its fetch plus its handler's table entry |
| DispatchFacts.LoadAdvances | src/cpu/handlers/loads.rs:3-11 | a load, failing or not, only advances the clock and keeps the ROM and bank selection |
| DispatchFacts.IncR8Advances | src/cpu/handlers/arithmetic.rs:183-219 | INC/DEC, failing or not, only advances the clock and keeps the ROM and bank selection |
| DispatchFacts.AddAdvances | src/cpu/handlers/arithmetic.rs:10-44 | add only advances the clock and keeps the memory layout |
| DispatchFacts.SubAdvances | src/cpu/handlers/arithmetic.rs:46-81 | sub only advances the clock and keeps the memory layout |
| DispatchFacts.LogicAdvances | src/cpu/handlers/arithmetic.rs:84-153 | and/xor/or only advance the clock and keep the memory layout |
| DispatchFacts.CpAdvances | src/cpu/handlers/arithmetic.rs:156-180 | cp only advances the clock and keeps the memory layout |
| DispatchFacts.ExecuteAdvances | src/cpu/cpu_context.rs:101-126 | every handler, failing or not, only advances the clock |
| DispatchFacts.RunAdvances | src/cpu/cpu_context.rs:96-129 | a whole run only advances the clock, keeps the memory layout, and keeps T-cycles four times M-cycles |
| DispatchFacts.RunSplit | src/cpu/cpu_context.rs:97-128 | running a + b iterations is running a, then b more from where it stopped |
| DispatchFacts.RunStopsForGood | src/cpu/cpu_context.rs:96-129 | the loop exits only on an error: a run that halted stays halted with more fuel |
| DispatchFacts.RunIllegalHalts | src/cpu/cpu_context.rs:122-124 | an illegal opcode at PC halts the loop with its error after one fetch |
| Cpu.Cpu.constructor | src/cpu/cpu_context.rs:75-81 | the unit holds the given registers, memory map and clock |
| Cpu.Cpu.TimedRead | src/cpu/cpu_context.rs:39 | a read through the context ticks once, then reads the map |
| Cpu.Cpu.TimedWrite | src/cpu/cpu_context.rs:51 | a write through the context ticks once, then writes the map |
| Cpu.Cpu.Assign | src/cpu/operands.rs:43-46 | the register assignment changes the object's registers as Semantics.Assign says |
| Cpu.Cpu.Fetch | src/cpu/cpu_context.rs:83-94 | fetch updates PC and the clock in place as Semantics.Fetch says, for every revision |
| Cpu.Cpu.GetR8Param | src/cpu/operands.rs:15-31 | the latest revision's operand decode, in place, as Semantics.GetR8Param |
| Cpu.Cpu.R8Read | src/cpu/operands.rs:33-39 | R8::read, in place, as Semantics.R8Read |
| Cpu.Cpu.R8Write | src/cpu/operands.rs:41-53 | R8::write, in place, as Semantics.R8Write |
| Cpu.Cpu.GetLoadedParam | src/cpu/clu/clu.rs:18-36 | the intermediate operand decode, in place, as Semantics.GetLoadedParam |
| Cpu.Cpu.LoadFromEarliest | src/cpu/clu.rs:39-58 | the earliest load, in place, as Semantics.LoadFromEarliest |
| Cpu.Cpu.LoadFromIntermediate | src/cpu/clu/clu.rs:68-84 | the intermediate load, in place, as Semantics.LoadFromIntermediate |
| Cpu.Cpu.LoadFromLatest | src/cpu/handlers/loads.rs:3-11 | the latest load, in place, as Semantics.LoadFromLatest |
| Cpu.Cpu.Jmp | src/cpu/handlers/jumps.rs:3-28 | jmp, in place, as Semantics.Jmp |
| Cpu.Cpu.DirectOperand | src/cpu/handlers/arithmetic.rs:11-25 | the operand block of add and sub, in place |
| Cpu.Cpu.Add | src/cpu/handlers/arithmetic.rs:10-44 | add, in place, as Semantics.Add |
| Cpu.Cpu.Sub | src/cpu/handlers/arithmetic.rs:46-81 | sub, in place, as Semantics.Sub |
| Cpu.Cpu.Logic | src/cpu/handlers/arithmetic.rs:84-153 | and / xor / or, in place, as Semantics.Logic |
| Cpu.Cpu.Cp | src/cpu/handlers/arithmetic.rs:156-180 | cp, in place, as Semantics.Cp |
| Cpu.Cpu.IncR8 | src/cpu/handlers/arithmetic.rs:183-219 | inc_r8, in place, as Semantics.IncR8 |
| Cpu.Cpu.LoadFrom | src/cpu/cpu_context.rs:109 | the load handler of the unit's revision |
| Cpu.Cpu.Execute | src/cpu/cpu_context.rs:101-126 | one arm of the dispatch, in place, as Semantics.Execute |
| Cpu.Cpu.Step | src/cpu/cpu_context.rs:97-127 | one loop iteration, in place, as Semantics.Step |
| Cpu.Cpu.Run | src/cpu/cpu_context.rs:96-129 | the loop, for at most `fuel` iterations, ends in the state and stop reason of Semantics.Run |
| Scenarios.AddABExample | tests/arithmetic_tests.rs:22-34 | ADD A,B on 172 and 108 gives 24 with C and H set, Z and N clear, in two M-cycles |
| Scenarios.AddABZeroExample | tests/arithmetic_tests.rs:35-43 | ADD A,B on 0 and 0 sets Z only |
| Scenarios.AdcAHlExample | tests/arithmetic_tests.rs:47-60 | ADC A,[HL] on 172, 108 and carry gives 25 with C and H set |
| Scenarios.AdcAHlWrapExample | tests/arithmetic_tests.rs:62-70 | ADC A,[HL] on 255, 0 and carry wraps to 0 with Z, C and H set |
| Scenarios.SubACExample | tests/arithmetic_tests.rs:74-85 | SUB A,C on 64 and 108 gives 212 with C, H and N set |
| Scenarios.SubACZeroExample | tests/arithmetic_tests.rs:87-95 | SUB A,C on 0 and 0 sets Z and N only |
| Scenarios.SbcAHlExample | tests/arithmetic_tests.rs:99-112 | SBC A,[HL] on 64, 108 and carry gives 211 with C, H and N set |
| Scenarios.SbcAHlZeroExample | tests/arithmetic_tests.rs:114-122 | SBC A,[HL] on 1, 0 and carry gives 0 with Z and N set |
| Scenarios.IncBExample | tests/arithmetic_tests.rs:126-136 | INC B on 255 wraps to 0 with Z and H set and N clear, in two M-cycles |
| Scenarios.DecHlExample | tests/arithmetic_tests.rs:139-150 | DEC [HL] on 0 writes 255 with H and N set and Z clear; the run halts on the trailing illegal opcode 0xDD after five M-cycles (operand read 1, two explicit ticks, two fetches) |
| Scenarios.LdBLExample | tests/load_tests.rs:22-29 | LD B,L copies L into B in two M-cycles |
| Scenarios.LdBHlExample | src/cpu/clu/tests.rs:31-45 | LD B,[HL] loads the byte at HL into B in three M-cycles |
| Scenarios.LdHlAExample | src/cpu/clu/tests.rs:47-61 | LD [HL],A stores A at HL in three M-cycles |
| Scenarios.JpExample | tests/jump_tests.rs:21-28 | JP 0x0004 ends at PC 5 after five M-cycles |
| Scenarios.JpNzExample | tests/jump_tests.rs:30-48 | JP NZ jumps (PC 5, five M-cycles) when Z is clear and falls through (PC 4, four) when it is set |
| RomParser.ValidateHeaderChecksum | src/rom/rom_parser.rs:94-102 | the loop accepts exactly when the wrapping accumulator x - b - 1 over the header equals the stored byte |
| RomParser.HeaderChecksumClosedForm | src/rom/rom_parser.rs:95-98 | the accumulator is -(sum of bytes + their count) mod 256 |
| RomParser.ChecksumAccepts | src/rom/rom_parser.rs:94-102 | a header is accepted exactly when sum + count + checksum is a multiple of 256 |
| RomParser.ChecksumDetectsOneByteChange | src/rom/rom_parser.rs:94-102 | changing any single header byte changes the checksum |
| RomParser.ValidateRom | src/rom/rom_parser.rs:104-106 | the ROM is valid exactly when its 48 bytes at 0x104 equal the Nintendo logo |
| RomParser.DecodeCgb | src/rom/rom_parser.rs:39-44 | 0x80 is CGB-compatible, 0xC0 CGB-exclusive, everything else monochrome |
| RomParser.RomBanks | src/rom/rom_parser.rs:53 | `2 * (1 << code)` in u16 is defined exactly for codes up to 14, where it is 2^(code + 1) |
| RomParser.MemBanks | src/rom/rom_parser.rs:56-63 | code 1 gives 1 bank, 3 gives 4, 4 gives 16, 5 gives 8, and every other code 0 |
| RomParser.RomChecksum | src/rom/rom_parser.rs:74-77 | the global checksum is the two bytes at 0x14E read big-endian |
| RomParser.ParseRomHeader | src/rom/rom_parser.rs:27-92 | rejects a ROM of 0x150 bytes or fewer, then a missing logo, then a ROM-size code above 14, then a bad header checksum (each as an if-and-only-if); an accepted ROM carries every field decoded from its address |

## Left out

- File I/O and the emulator entry points (`main.rs`, `emulator.rs`, `MemoryMap::init_rom`, the `fs::read` in `parse_rom_header`): the parser takes the ROM bytes as a parameter, and a memory map is built from given buffers.
- Printing and logging (`print!`, `R8::log`, the `Display` of the CGB mode): these have no effect on the state.
- The register file's own code: `src/cpu/reg_file.rs` is an unfinished stub, and the register module that defines `set_flag`, `read_flag` and `match_condition` is not part of this model. They are modelled from their call sites as described above.
- `Clock::tick` and `Clock::default` are not in `clock.rs`; tick is modelled as `inc_cycle(1)` and the default as both counters at 0.
- Cycles.Clock.IncCycle: the counters are unbounded; the u32 and u64 wrap-around of `m_cycles` and `c_cycles` is not modelled. `count * 4` is computed in u8 in the source, so counts of 64 or more (which would panic) are excluded by a precondition.
- Semantics.Fetch: `pc += 1` at 0xFFFF panics in the source, so the fetch requires PC < 0xFFFF. `Run` stops with `Panicked` before any step that would reach it. The same holds for the i16 overflow of `JR` (`RelOverflows`) and for the `src + 1` overflow of ADC/SBC on 0xFF.
- Semantics.Run and Cpu.Cpu.Run: the source loop has no bound. The model runs for at most `fuel` iterations, and a run that uses up its fuel stops with `OutOfFuel`.
- Alu.ReadBits: the u8 `index` and `length` are naturals, and the shift panics for a non-empty field past bit 8 are excluded by a precondition.
- Semantics.LoadFromEarliest: `src/cpu/clu.rs:47` and `:55` access registers through `match_register`, whose definition is not part of this model; it is assumed to behave as `match_r8` (indices b, c, d, e, h, l, -, a, failing on 6), and HandlerFacts.LoadLatestIsEarliest and Cpu.Cpu.LoadFromEarliest rest on that assumption.
- Cpu.Cpu.TimedRead, Cpu.Cpu.TimedWrite, Semantics.R8Read, Semantics.R8Write: the latest revision calls `memory.read(&mut clock, addr)` and `memory.write(&mut clock, addr, value)` (`src/cpu/cpu_context.rs:84`, `src/cpu/operands.rs:36,48`), but the only `MemoryMap` here (`src/mem/map.rs:18`, `:39`) takes no clock. The clock-taking read and write are modelled as one tick followed by the `map.rs` access, with the tick taken whether or not the access succeeds; where the real tick falls and what it does on failure are assumptions.
- Alu.WriteBits: the Rust panics are excluded by preconditions rather than modelled as an outcome: `index + length` overflowing u8, `1 << 8` (length 8), and `mask << 8` / `bits << 8` for an empty field at index 8.
- RomParser.ParseRomHeader: the title is kept as its 15 raw bytes; `String::from_utf8_lossy` has no counterpart.
- The arithmetic handlers exist only in the intermediate form, which takes a `CLU`; the latest dispatch calls them on the `CpuContext`. The model uses the same handler in both revisions, with untimed reads and explicit ticks.
- `tests/load_tests.rs` `ld_hl_n8` and `ld_e_n8` run 0x36 and 0x1E, which the dispatch of every revision treats as unsupported, so they are not modelled as passing. `adc_a_hl` and `sbc_a_hl` add one M-cycle for their setup write through the ticking map, and the load tests one for their reads. The scenarios count the run alone.
- Scenarios.DecHlExample: `tests/arithmetic_tests.rs` `dec_hl` asserts 6 M-cycles at line 146, but `inc_r8` in `src/cpu/handlers/arithmetic.rs:183-219` costs four per step for `[HL]` (fetch, the operand read, two explicit ticks), so the run is five and the test's setup write (line 143) and read (line 145) through the ticking map bring the total to seven; the model follows the handler, so it does not reproduce that assertion.
- The relative jump adds the offset byte zero-extended (`fetch() as i16` of a u8), so a JR can only go forward, wrapping past 0xFFFF to the bottom of the address space. The model keeps this as written; a backward jump is not modelled.
- The RAM-size code 0x02 (one 8 KiB bank in the Pan Docs) gives 0 banks, as in the source.
- ADC/SBC compute the half carry from `src + 1` rather than from the carry in separately. The model keeps the source's formula.
- A failed fetch read yields opcode 0 (a NOP) as in the source; the error message is dropped.
- `R16Type`/`R16` are decoded and read or written, but no handler in the core uses them yet; they have no dispatch entry.
