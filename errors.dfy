/** Error taxonomy of the execution core and the Result type every fallible
    operation returns. The Rust source reports errors as formatted strings;
    here each message becomes a constructor carrying the values the message
    prints. */
module Errors {

  datatype Error =
    | OutOfBounds(addr: int)              // no backing cell (a bank shorter than its window)
    | ReadOnly(addr: int, bank: int)      // write into ROM bank 0 or the switchable ROM bank
    | Prohibited(addr: int)               // write into 0xFEA0..0xFEFF
    | InvalidRegister(index: int)         // r8 index with no register behind it
    | InvalidCondition(code: int)         // condition code outside 0..3
    | IllegalOpcode(opcode: int)          // one of the opcodes the SM83 does not define
    | InvalidLoadOperand                  // an immediate operand where LD needs r8 or [hl]
    | BitOverflow(index: int, length: int) // write_bits with index + length > 8

  datatype Result<+T> = Ok(value: T) | Err(error: Error)

  datatype Option<+T> = None | Some(value: T)
}
