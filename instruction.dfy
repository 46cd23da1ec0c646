/**
 * The instruction set: one opcode byte (`repr(u8)`) opens every instruction.
 * JumpIfEqual sits after Jump, so JumpIfLessThan is 8 and Print is 9.
 */
module Instruction {
  import opened Bytes

  datatype Opcode =
    // Memory
    | Move
    // Arithmetic
    | Add | Subtract | Multiply | Divide
    // Control flow
    | Compare | Jump | JumpIfEqual | JumpIfLessThan
    // Debugging
    | Print

  /** Opcodes followed by a metadata byte and a `[dst][imm or src]` operand pair. */
  predicate TakesOperands(op: Opcode) {
    op in {Move, Add, Subtract, Multiply, Divide, Compare}
  }

  /** A byte that is the discriminant of some opcode. */
  predicate IsOpcode(b: byte) {
    b < 10
  }

  /** The discriminant of an opcode. */
  function ToByte(op: Opcode): (b: byte)
    ensures IsOpcode(b)
  {
    match op
    case Move => 0
    case Add => 1
    case Subtract => 2
    case Multiply => 3
    case Divide => 4
    case Compare => 5
    case Jump => 6
    case JumpIfEqual => 7
    case JumpIfLessThan => 8
    case Print => 9
  }

  /**
   * The opcode a byte stands for. The source transmutes without a check,
   * so a byte that is no discriminant is excluded by the precondition.
   */
  function FromByte(b: byte): (op: Opcode)
    requires IsOpcode(b)
    ensures ToByte(op) == b
  {
    match b
    case 0 => Move
    case 1 => Add
    case 2 => Subtract
    case 3 => Multiply
    case 4 => Divide
    case 5 => Compare
    case 6 => Jump
    case 7 => JumpIfEqual
    case 8 => JumpIfLessThan
    case _ => Print
  }

  /** Decoding a discriminant gives back the opcode: the encoding is injective. */
  lemma FromToByte(op: Opcode)
    ensures FromByte(ToByte(op)) == op
  {
  }
}
