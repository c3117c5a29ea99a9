/** Instruction decoding: how many operand bytes follow each opcode. The
    string push 0x0D is the one variable-length instruction and is decoded
    on its own. */
module Opcodes {
  import opened Words

  /** The fixed number of operand bytes after opcode op, looked up by
      opcode range: from 0x14 to 0x3D, the arithmetic, comparison and
      string/list range, only 0x19-0x1B and 0x38 take operands. */
  function Operands(op: u8): (n: nat)
    ensures n <= 11
  {
    if op < 0x14 then
      match op
      case 0x00 => 1
      case 0x01 => 1
      case 0x02 => 1
      case 0x03 => 2
      case 0x09 => 3
      case 0x0A => 1
      case 0x0B => 2
      case 0x0C => 4
      case 0x0E => 2
      case 0x0F => 3
      case 0x11 => 4
      case _ => 0
    else if op < 0x3E then
      if op == 0x19 || op == 0x1A || op == 0x1B then 1
      else if op == 0x38 then 2
      else 0
    else if op < 0x60 then
      match op
      case 0x3E => 1
      case 0x3F => 1
      case 0x40 => 1
      case 0x41 => 1
      case 0x42 => 2
      case 0x43 => 1
      case 0x44 => 2
      case 0x45 => 2
      case 0x4B => 1
      case 0x4C => 1
      case 0x4D => 1
      case 0x4E => 3
      case 0x4F => 3
      case 0x51 => 2
      case 0x52 => 2
      case 0x54 => 2
      case 0x57 => 6
      case 0x58 => 8
      case 0x5A => 1
      case 0x5B => 2
      case 0x5C => 11
      case _ => 0
    else
      match op
      case 0x62 => 1
      case 0x63 => 1
      case 0x64 => 1
      case 0x65 => 1
      case 0x66 => 1
      case 0x67 => 1
      case 0x69 => 1
      case 0x6C => 2
      case 0x6E => 1
      case 0x6F => 1
      case 0x70 => 3
      case 0x74 => 1
      case 0x75 => 4
      case 0x76 => 4
      case 0x79 => 2
      case _ => 0
  }
}
