/** Instructions as the assembler builds them and the simulator runs them. */
module Instruction {
  import opened Word

  datatype Option<+T> = None | Some(value: T)

  /** The MIPS32 Release 1 integer opcodes, and INVALID for the opcode 0 that decoding yields
      when a word is in no table entry. */
  datatype Op =
    | ADD | ADDI | ADDIU | ADDU | AND | ANDI
    | BEQ | BEQL | BGEZ | BGEZAL | BGEZALL | BGEZL | BGTZ | BGTZL | BLEZ | BLEZL
    | BLTZ | BLTZAL | BLTZALL | BLTZL | BNE | BNEL | BREAK
    | CACHE | CLO | CLZ | DIV | DIVU | ERET | J | JAL | JALR | JR
    | LB | LBU | LDC2 | LH | LHU | LL | LUI | LW | LWC2 | LWL | LWR
    | MADD | MADDU | MFC0 | MFC2 | MFHI | MFLO | MOVN | MOVZ | MSUB | MSUBU | MTC0 | MTC2
    | MTHI | MTLO | MUL | MULT | MULTU | NOR | OR | ORI | PREF | RFE
    | SB | SC | SDC2 | SH | SLL | SLLV | SLT | SLTI | SLTIU | SLTU | SRA | SRAV | SRL | SRLV
    | SUB | SUBU | SW | SWC2 | SWL | SWR | SYNC | SYSCALL
    | TEQ | TEQI | TGE | TGEI | TGEIU | TGEU | TLBP | TLBR | TLBWI | TLBWR
    | TLT | TLTI | TLTIU | TLTU | TNE | TNEI | XOR | XORI
    | INVALID

  /** An immediate operand: symbol + offset, of which all, the upper or the lower half is used.
      `bits` is positive for the upper half and negative for the lower one. */
  datatype ImmExpr = ImmExpr(offset: Int32, symbol: Option<string>, bits: int, pcRelative: bool)

  datatype Inst = Inst(op: Op, rs: Reg, rt: Reg, rd: Reg, shamt: Reg, imm: Int16, target: Word,
                       encoding: Word, expr: Option<ImmExpr>)

  type Slot = Option<Inst>

  predicate IsBranch(op: Op) {
    op in {BEQ, BEQL, BGEZ, BGEZAL, BGEZALL, BGEZL, BGTZ, BGTZL, BLEZ, BLEZL,
           BLTZ, BLTZAL, BLTZALL, BLTZL, BNE, BNEL}
  }

  predicate IsJump(op: Op) { op == J || op == JAL }

  predicate IsLoadStore(op: Op) {
    op in {LB, LBU, LH, LHU, LL, LDC2, LW, LWC2, LWL, LWR, SB, SC, SH, SDC2, SW, SWC2, SWL, SWR}
  }

  /** Byte displacement of a branch: the offset field shifted left by two, then sign-extended
      from bit 15 of the result (not bit 17). */
  function Idisp(imm: Int16): int {
    var x := imm * 4;
    if (x / 0x8000) % 2 == 1 then x % 0x1_0000 - 0x1_0000 else x
  }
}
