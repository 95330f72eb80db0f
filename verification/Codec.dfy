/** Binary encoding of instructions, and decoding by table look-up. */
module Codec {
  import opened Word
  import opened Instruction

  datatype Format =
    | B1 | I1s | I1t | I2 | B2 | I2a | R1s | R1d | R2td | R2st | R2ds | R2sh | R3 | R3sh
    | Jump | NoArg

  type Six = x: int | 0 <= x < 64 witness 0

  /** Digits of a word, side by side: bits 31-26, 25-21, 20-16, 15-11, 10-6 and 5-0. */
  function Pack(p: Six, rs: Reg, rt: Reg, rd: Reg, sa: Reg, fn: Six): Word {
    p * 0x400_0000 + rs * 0x20_0000 + rt * 0x1_0000 + rd * 0x800 + sa * 0x40 + fn
  }

  // ---------- The table of encodings ----------

  /** A table entry: the format of the opcode, and the digits that are fixed for it, in bits 31-26,
      25-21, 20-16 and 5-0. Bits 15 to 6 are clear in every entry. */
  datatype Row = Row(format: Format, major: Six, rs: Reg, rt: Reg, fn: Six)

  predicate IsRFormat(f: Format) { f.R1s? || f.R1d? || f.R2st? || f.R2ds? || f.R2sh? || f.R3? || f.R3sh? }

  predicate IsIFormat(f: Format) { f.I1t? || f.I2? || f.B2? || f.I2a? || f.Jump? }

  /** Major opcodes whose instructions continue the opcode in another field. */
  predicate Continues(p: int) { p == 0 || p == 1 || p == 0x1c || p == 0x10 || p == 0x12 || p == 0x13 }

  // Where an entry's fixed digits may lie, leaving room for the fields of its format.

  predicate InSpecial(x: Row) {
    x.major == 0 && x.rs == 0 && x.rt == 0 && (IsRFormat(x.format) || x.format.NoArg?)
  }

  predicate InMajor(x: Row, lo: int, hi: int) {
    lo <= x.major < hi && !Continues(x.major) && x.rs == 0 && x.rt == 0 && x.fn == 0
      && (IsIFormat(x.format) || x.format.B1?)
  }

  predicate InCop(x: Row) {
    && (x.major == 0x10 || x.major == 0x12) && x.rt == 0
    && if x.format.NoArg? then x.major == 0x10 && x.fn < 32 else x.format.R2td? && x.fn == 0
  }

  // Major opcode 0, told apart by the function code.

  predicate IsSpecial(op: Op) {
    op in {ADD, ADDU, AND, BREAK, DIV, DIVU, JALR, JR, MFHI, MFLO, MOVN, MOVZ, MTHI, MTLO, MULT, MULTU,
      NOR, OR, SLL, SLLV, SLT, SLTU, SRA, SRAV, SRL, SRLV, SUB, SUBU, SYNC, SYSCALL, TEQ, TGE, TGEU,
      TLT, TLTU, TNE, XOR}
  }

  function LookupSpecial(fn: int): Op {
    match fn
    case 0x00 => SLL      case 0x02 => SRL      case 0x03 => SRA      case 0x04 => SLLV
    case 0x06 => SRLV     case 0x07 => SRAV     case 0x08 => JR       case 0x09 => JALR
    case 0x0a => MOVZ     case 0x0b => MOVN     case 0x0c => SYSCALL  case 0x0d => BREAK
    case 0x0f => SYNC     case 0x10 => MFHI     case 0x11 => MTHI     case 0x12 => MFLO
    case 0x13 => MTLO     case 0x18 => MULT     case 0x19 => MULTU    case 0x1a => DIV
    case 0x1b => DIVU     case 0x20 => ADD      case 0x21 => ADDU     case 0x22 => SUB
    case 0x23 => SUBU     case 0x24 => AND      case 0x25 => OR       case 0x26 => XOR
    case 0x27 => NOR      case 0x2a => SLT      case 0x2b => SLTU     case 0x30 => TGE
    case 0x31 => TGEU     case 0x32 => TLT      case 0x33 => TLTU     case 0x34 => TEQ
    case 0x36 => TNE      case _ => INVALID
  }

  function SpecialRow(op: Op): (x: Row)
    requires IsSpecial(op)
    ensures InSpecial(x) && LookupSpecial(x.fn) == op
  {
    match op
    case ADD => Row(R3, 0x00, 0, 0, 0x20)         case ADDU => Row(R3, 0x00, 0, 0, 0x21)
    case AND => Row(R3, 0x00, 0, 0, 0x24)         case BREAK => Row(NoArg, 0x00, 0, 0, 0x0d)
    case DIV => Row(R2st, 0x00, 0, 0, 0x1a)       case DIVU => Row(R2st, 0x00, 0, 0, 0x1b)
    case JALR => Row(R2ds, 0x00, 0, 0, 0x09)      case JR => Row(R1s, 0x00, 0, 0, 0x08)
    case MFHI => Row(R1d, 0x00, 0, 0, 0x10)       case MFLO => Row(R1d, 0x00, 0, 0, 0x12)
    case MOVN => Row(R3, 0x00, 0, 0, 0x0b)        case MOVZ => Row(R3, 0x00, 0, 0, 0x0a)
    case MTHI => Row(R1s, 0x00, 0, 0, 0x11)       case MTLO => Row(R1s, 0x00, 0, 0, 0x13)
    case MULT => Row(R2st, 0x00, 0, 0, 0x18)      case MULTU => Row(R2st, 0x00, 0, 0, 0x19)
    case NOR => Row(R3, 0x00, 0, 0, 0x27)         case OR => Row(R3, 0x00, 0, 0, 0x25)
    case SLL => Row(R2sh, 0x00, 0, 0, 0x00)       case SLLV => Row(R3sh, 0x00, 0, 0, 0x04)
    case SLT => Row(R3, 0x00, 0, 0, 0x2a)         case SLTU => Row(R3, 0x00, 0, 0, 0x2b)
    case SRA => Row(R2sh, 0x00, 0, 0, 0x03)       case SRAV => Row(R3sh, 0x00, 0, 0, 0x07)
    case SRL => Row(R2sh, 0x00, 0, 0, 0x02)       case SRLV => Row(R3sh, 0x00, 0, 0, 0x06)
    case SUB => Row(R3, 0x00, 0, 0, 0x22)         case SUBU => Row(R3, 0x00, 0, 0, 0x23)
    case SYNC => Row(NoArg, 0x00, 0, 0, 0x0f)     case SYSCALL => Row(NoArg, 0x00, 0, 0, 0x0c)
    case TEQ => Row(R2st, 0x00, 0, 0, 0x34)       case TGE => Row(R2st, 0x00, 0, 0, 0x30)
    case TGEU => Row(R2st, 0x00, 0, 0, 0x31)      case TLT => Row(R2st, 0x00, 0, 0, 0x32)
    case TLTU => Row(R2st, 0x00, 0, 0, 0x33)      case TNE => Row(R2st, 0x00, 0, 0, 0x36)
    case XOR => Row(R3, 0x00, 0, 0, 0x26)
  }

  // Major opcode 1, told apart by bits 20 to 16.

  predicate IsRegimm(op: Op) {
    op in {BGEZ, BGEZAL, BGEZALL, BGEZL, BLTZ, BLTZAL, BLTZALL, BLTZL, TEQI, TGEI, TGEIU, TLTI, TLTIU,
      TNEI}
  }

  function LookupRegimm(rt: int): Op {
    match rt
    case 0x00 => BLTZ     case 0x01 => BGEZ     case 0x02 => BLTZL    case 0x03 => BGEZL
    case 0x08 => TGEI     case 0x09 => TGEIU    case 0x0a => TLTI     case 0x0b => TLTIU
    case 0x0c => TEQI     case 0x0e => TNEI     case 0x10 => BLTZAL   case 0x11 => BGEZAL
    case 0x12 => BLTZALL  case 0x13 => BGEZALL  case _ => INVALID
  }

  function RegimmRow(op: Op): (x: Row)
    requires IsRegimm(op)
    ensures x.major == 1 && x.rs == 0 && x.fn == 0 && (x.format.B1? || x.format.I1s?) && LookupRegimm(x.rt) == op
  {
    match op
    case BGEZ => Row(B1, 0x01, 0, 1, 0x00)      case BGEZAL => Row(B1, 0x01, 0, 17, 0x00)
    case BGEZALL => Row(B1, 0x01, 0, 19, 0x00)  case BGEZL => Row(B1, 0x01, 0, 3, 0x00)
    case BLTZ => Row(B1, 0x01, 0, 0, 0x00)      case BLTZAL => Row(B1, 0x01, 0, 16, 0x00)
    case BLTZALL => Row(B1, 0x01, 0, 18, 0x00)  case BLTZL => Row(B1, 0x01, 0, 2, 0x00)
    case TEQI => Row(I1s, 0x01, 0, 12, 0x00)    case TGEI => Row(I1s, 0x01, 0, 8, 0x00)
    case TGEIU => Row(I1s, 0x01, 0, 9, 0x00)    case TLTI => Row(I1s, 0x01, 0, 10, 0x00)
    case TLTIU => Row(I1s, 0x01, 0, 11, 0x00)   case TNEI => Row(I1s, 0x01, 0, 14, 0x00)
  }

  // The coprocessors.

  predicate IsCop(op: Op) {
    op in {ERET, MFC0, MFC2, MTC0, MTC2, RFE, TLBP, TLBR, TLBWI, TLBWR}
  }

  function LookupCop(major: int, rs: int, fn: int): Op {
    if major == 0x12 then (if rs == 0 then MFC2 else if rs == 4 then MTC2 else INVALID)
    else if rs == 0x10 then
      match fn
      case 0x01 => TLBR case 0x02 => TLBWI case 0x06 => TLBWR case 0x08 => TLBP
      case 0x10 => RFE  case 0x18 => ERET  case _ => INVALID
    else if fn == 0 && rs == 0 then MFC0
    else if fn == 0 && rs == 4 then MTC0
    else INVALID
  }

  function CopRow(op: Op): (x: Row)
    requires IsCop(op)
    ensures InCop(x) && LookupCop(x.major, x.rs, x.fn % 32) == op
  {
    match op
    case ERET => Row(NoArg, 0x10, 16, 0, 0x18)   case MFC0 => Row(R2td, 0x10, 0, 0, 0x00)
    case MFC2 => Row(R2td, 0x12, 0, 0, 0x00)     case MTC0 => Row(R2td, 0x10, 4, 0, 0x00)
    case MTC2 => Row(R2td, 0x12, 4, 0, 0x00)     case RFE => Row(NoArg, 0x10, 16, 0, 0x10)
    case TLBP => Row(NoArg, 0x10, 16, 0, 0x08)   case TLBR => Row(NoArg, 0x10, 16, 0, 0x01)
    case TLBWI => Row(NoArg, 0x10, 16, 0, 0x02)  case TLBWR => Row(NoArg, 0x10, 16, 0, 0x06)
  }

  // Major opcode 0x1c.

  predicate IsSpecial2(op: Op) {
    op in {CLO, CLZ, MADD, MADDU, MSUB, MSUBU, MUL}
  }

  function LookupSpecial2(fn: int): Op {
    match fn
    case 0x00 => MADD   case 0x01 => MADDU  case 0x02 => MUL    case 0x04 => MSUB   case 0x05 => MSUBU
    case 0x20 => CLZ    case 0x21 => CLO    case _ => INVALID
  }

  function Special2Row(op: Op): (x: Row)
    requires IsSpecial2(op)
    ensures x.major == 0x1c && x.rs == 0 && x.rt == 0 && IsRFormat(x.format) && LookupSpecial2(x.fn) == op
  {
    match op
    case CLO => Row(R3, 0x1c, 0, 0, 0x21)      case CLZ => Row(R3, 0x1c, 0, 0, 0x20)
    case MADD => Row(R2st, 0x1c, 0, 0, 0x00)   case MADDU => Row(R2st, 0x1c, 0, 0, 0x01)
    case MSUB => Row(R2st, 0x1c, 0, 0, 0x04)   case MSUBU => Row(R2st, 0x1c, 0, 0, 0x05)
    case MUL => Row(R3, 0x1c, 0, 0, 0x02)
  }

  // Major opcodes below 0x20.

  predicate IsMajor(op: Op) {
    op in {ADDI, ADDIU, ANDI, BEQ, BEQL, BGTZ, BGTZL, BLEZ, BLEZL, BNE, BNEL, J, JAL, LUI, ORI, SLTI,
      SLTIU, XORI}
  }

  function LookupMajor(major: int): Op {
    match major
    case 0x02 => J      case 0x03 => JAL    case 0x04 => BEQ    case 0x05 => BNE    case 0x06 => BLEZ
    case 0x07 => BGTZ   case 0x08 => ADDI   case 0x09 => ADDIU  case 0x0a => SLTI   case 0x0b => SLTIU
    case 0x0c => ANDI   case 0x0d => ORI    case 0x0e => XORI   case 0x0f => LUI    case 0x14 => BEQL
    case 0x15 => BNEL   case 0x16 => BLEZL  case 0x17 => BGTZL  case _ => INVALID
  }

  function MajorRow(op: Op): (x: Row)
    requires IsMajor(op)
    ensures InMajor(x, 2, 0x20) && LookupMajor(x.major) == op
  {
    match op
    case ADDI => Row(I2, 0x08, 0, 0, 0x00)   case ADDIU => Row(I2, 0x09, 0, 0, 0x00)
    case ANDI => Row(I2, 0x0c, 0, 0, 0x00)   case BEQ => Row(B2, 0x04, 0, 0, 0x00)
    case BEQL => Row(B2, 0x14, 0, 0, 0x00)   case BGTZ => Row(B1, 0x07, 0, 0, 0x00)
    case BGTZL => Row(B1, 0x17, 0, 0, 0x00)  case BLEZ => Row(B1, 0x06, 0, 0, 0x00)
    case BLEZL => Row(B1, 0x16, 0, 0, 0x00)  case BNE => Row(B2, 0x05, 0, 0, 0x00)
    case BNEL => Row(B2, 0x15, 0, 0, 0x00)   case J => Row(Jump, 0x02, 0, 0, 0x00)
    case JAL => Row(Jump, 0x03, 0, 0, 0x00)  case LUI => Row(I1t, 0x0f, 0, 0, 0x00)
    case ORI => Row(I2, 0x0d, 0, 0, 0x00)    case SLTI => Row(I2, 0x0a, 0, 0, 0x00)
    case SLTIU => Row(I2, 0x0b, 0, 0, 0x00)  case XORI => Row(I2, 0x0e, 0, 0, 0x00)
  }

  // Major opcodes from 0x20.

  predicate IsMemory(op: Op) {
    op in {CACHE, LB, LBU, LDC2, LH, LHU, LL, LW, LWC2, LWL, LWR, PREF, SB, SC, SDC2, SH, SW, SWC2, SWL,
      SWR}
  }

  function LookupMemory(major: int): Op {
    match major
    case 0x20 => LB     case 0x21 => LH     case 0x22 => LWL    case 0x23 => LW     case 0x24 => LBU
    case 0x25 => LHU    case 0x26 => LWR    case 0x28 => SB     case 0x29 => SH     case 0x2a => SWL
    case 0x2b => SW     case 0x2e => SWR    case 0x2f => CACHE  case 0x30 => LL     case 0x32 => LWC2
    case 0x33 => PREF   case 0x36 => LDC2   case 0x38 => SC     case 0x3a => SWC2   case 0x3e => SDC2
    case _ => INVALID
  }

  function MemoryRow(op: Op): (x: Row)
    requires IsMemory(op)
    ensures InMajor(x, 0x20, 0x40) && LookupMemory(x.major) == op
  {
    match op
    case CACHE => Row(I2, 0x2f, 0, 0, 0x00)  case LB => Row(I2a, 0x20, 0, 0, 0x00)
    case LBU => Row(I2a, 0x24, 0, 0, 0x00)   case LDC2 => Row(I2a, 0x36, 0, 0, 0x00)
    case LH => Row(I2a, 0x21, 0, 0, 0x00)    case LHU => Row(I2a, 0x25, 0, 0, 0x00)
    case LL => Row(I2a, 0x30, 0, 0, 0x00)    case LW => Row(I2a, 0x23, 0, 0, 0x00)
    case LWC2 => Row(I2a, 0x32, 0, 0, 0x00)  case LWL => Row(I2a, 0x22, 0, 0, 0x00)
    case LWR => Row(I2a, 0x26, 0, 0, 0x00)   case PREF => Row(I2, 0x33, 0, 0, 0x00)
    case SB => Row(I2a, 0x28, 0, 0, 0x00)    case SC => Row(I2a, 0x38, 0, 0, 0x00)
    case SDC2 => Row(I2a, 0x3e, 0, 0, 0x00)  case SH => Row(I2a, 0x29, 0, 0, 0x00)
    case SW => Row(I2a, 0x2b, 0, 0, 0x00)    case SWC2 => Row(I2a, 0x3a, 0, 0, 0x00)
    case SWL => Row(I2a, 0x2a, 0, 0, 0x00)   case SWR => Row(I2a, 0x2e, 0, 0, 0x00)
  }

  // The whole table.

  /** The entry of op leaves room for the fields of its format, and is the only one that shows
      its digits through the decoder's masks. */
  function Entry(op: Op): (x: Row)
    requires !op.INVALID?
    ensures Fits(x) && Lookup(x.major, x.rs, x.rt, x.fn) == op
  {
    if IsSpecial(op) then SpecialRow(op)
    else if IsRegimm(op) then RegimmRow(op)
    else if IsCop(op) then CopRow(op)
    else if IsSpecial2(op) then Special2Row(op)
    else if IsMajor(op) then MajorRow(op)
    else MemoryRow(op)
  }

  predicate Fits(x: Row) {
    if IsRFormat(x.format) then (x.major == 0 || x.major == 0x1c) && x.rs == 0 && x.rt == 0
    else if IsIFormat(x.format) then !Continues(x.major) && x.rs == 0 && x.rt == 0 && x.fn == 0
    else if x.format.R2td? then (x.major == 0x10 || x.major == 0x12) && x.rt == 0 && x.fn == 0
    else if x.format.NoArg? then (x.major == 0 && x.rs == 0 && x.rt == 0) || (x.major == 0x10 && x.rt == 0 && x.fn < 32)
    else (x.major == 1 || (x.rt == 0 && !Continues(x.major))) && x.rs == 0 && x.fn == 0
  }

  /** The opcode of the table entry with these digits, if there is one. Only the digits that the
      decoder's masks keep for major opcode p are looked at. */
  function Lookup(p: int, rs: int, rt: int, fn: int): Op {
    if p == 0 then LookupSpecial(fn)
    else if p == 1 then LookupRegimm(rt)
    else if p == 0x10 || p == 0x12 then LookupCop(p, rs, fn % 32)
    else if p == 0x1c then LookupSpecial2(fn)
    else if p < 0x20 then LookupMajor(p)
    else LookupMemory(p)
  }

  function FormatOf(op: Op): Format { if op.INVALID? then NoArg else Entry(op).format }

  function KeyOf(x: Row): Word { Pack(x.major, x.rs, x.rt, 0, 0, x.fn) }

  // ---------- Encoding ----------

  /** The weight of bit k, for the bits at which a field starts. */
  function Weight(k: nat): int
    requires k == 21 || k == 16 || k == 11 || k == 6
  {
    if k == 21 then 0x20_0000 else if k == 16 then 0x1_0000 else if k == 11 then 0x800 else 0x40
  }

  /** A register field at bit k. */
  function Regs(r: Reg, k: nat): Word
    requires k == 21 || k == 16 || k == 11 || k == 6
  { r * Weight(k) }

  function Imm16(i: Inst): Word { i.imm % 0x1_0000 }

  /** Put the fields that format f stores into the fixed bits k. */
  function Assemble(f: Format, k: Word, i: Inst): Word {
    match f
    case B1 | I1s => OrW(OrW(k, Regs(i.rs, 21)), Imm16(i))
    case I1t | I2 | B2 | I2a => OrW(OrW(OrW(k, Regs(i.rs, 21)), Regs(i.rt, 16)), Imm16(i))
    case R1s => OrW(k, Regs(i.rs, 21))
    case R1d => OrW(k, Regs(i.rd, 11))
    case R2td => OrW(OrW(k, Regs(i.rt, 16)), Regs(i.rd, 11))
    case R2st => OrW(OrW(k, Regs(i.rs, 21)), Regs(i.rt, 16))
    case R2ds => OrW(OrW(k, Regs(i.rs, 21)), Regs(i.rd, 11))
    case R2sh => OrW(OrW(OrW(k, Regs(i.rt, 16)), Regs(i.rd, 11)), Regs(i.shamt, 6))
    case R3 | R3sh => OrW(OrW(OrW(k, Regs(i.rs, 21)), Regs(i.rt, 16)), Regs(i.rd, 11))
    case Jump => OrW(k, i.target)
    case NoArg => k
  }

  function Encode(i: Inst): Word {
    if i.op.INVALID? then 0
    else Assemble(FormatOf(i.op), KeyOf(Entry(i.op)), i)
  }

  // ---------- Decoding ----------

  function BinReg(val: Word, k: nat): Reg
    requires k == 21 || k == 16 || k == 11 || k == 6
  { val / Weight(k) % 32 }

  function MkR(val: Word, op: Op, rs: Reg, rt: Reg, rd: Reg, shamt: Reg): Inst {
    Inst(op, rs, rt, rd, shamt, 0, 0, val, None)
  }

  function MkI(val: Word, op: Op, rs: Reg, rt: Reg, offset: int): Inst {
    Inst(op, rs, rt, 0, 0, S16(offset), 0, val, None)
  }

  function MkJ(val: Word, op: Op, target: Word): Inst {
    Inst(op, 0, 0, 0, 0, 0, target, val, None)
  }

  /** `val & 0x2ffffff`: bit 24 of a jump target is dropped. */
  function TargetOf(val: Word): Word { val % 0x100_0000 + val / 0x200_0000 % 2 * 0x200_0000 }

  /** The instruction made of the fields that format f stores, given all the field values. */
  function Take(f: Format, op: Op, val: Word, rs: Reg, rt: Reg, rd: Reg, sa: Reg, low: nat, target: Word): Inst {
    match f
    case B1 | I1s => MkI(val, op, rs, 0, low)
    case I1t | I2 | B2 | I2a => MkI(val, op, rs, rt, low)
    case R1s => MkR(val, op, rs, 0, 0, 0)
    case R1d => MkR(val, op, 0, 0, rd, 0)
    case R2td => MkR(val, op, 0, rt, rd, 0)
    case R2st => MkR(val, op, rs, rt, 0, 0)
    case R2ds => MkR(val, op, rs, 0, rd, 0)
    case R2sh => MkR(val, op, 0, rt, rd, sa)
    case R3 | R3sh => MkR(val, op, rs, rt, rd, 0)
    case Jump => MkJ(val, op, target)
    case NoArg => MkR(val, op, 0, 0, 0, 0)
  }

  function Extract(f: Format, op: Op, val: Word): Inst {
    Take(f, op, val, BinReg(val, 21), BinReg(val, 16), BinReg(val, 11), BinReg(val, 6), val % 0x1_0000, TargetOf(val))
  }

  function Decode(val: Word): Inst {
    var op := Lookup(val / 0x400_0000, BinReg(val, 21), BinReg(val, 16), val % 64);
    if op.INVALID? then MkR(val, INVALID, 0, 0, 0, 0) else Extract(FormatOf(op), op, val)
  }

  // ---------- Round trip ----------

  /** Agreement on the fields that format f stores. */
  predicate SameIn(f: Format, a: Inst, b: Inst) {
    match f
    case B1 | I1s => a.rs == b.rs && a.imm == b.imm
    case I1t | I2 | B2 | I2a => a.rs == b.rs && a.rt == b.rt && a.imm == b.imm
    case R1s => a.rs == b.rs
    case R1d => a.rd == b.rd
    case R2td => a.rt == b.rt && a.rd == b.rd
    case R2st => a.rs == b.rs && a.rt == b.rt
    case R2ds => a.rs == b.rs && a.rd == b.rd
    case R2sh => a.rt == b.rt && a.rd == b.rd && a.shamt == b.shamt
    case R3 | R3sh => a.rs == b.rs && a.rt == b.rt && a.rd == b.rd
    case Jump => a.target == b.target
    case NoArg => true
  }

  predicate SameFields(a: Inst, b: Inst) { a.op == b.op && SameIn(FormatOf(a.op), a, b) }

  lemma PackFields(p: Six, rs: Reg, rt: Reg, rd: Reg, sa: Reg, fn: Six)
    ensures var w := Pack(p, rs, rt, rd, sa, fn);
            w / 0x400_0000 == p && w % 64 == fn
            && w / 0x20_0000 % 32 == rs && w / 0x1_0000 % 32 == rt && w / 0x800 % 32 == rd
            && w / 0x40 % 32 == sa && w % 0x1_0000 == rd * 0x800 + sa * 0x40 + fn
  {
    var w := Pack(p, rs, rt, rd, sa, fn);
    assert w / 0x40 == p * 0x10_0000 + rs * 0x8000 + rt * 0x400 + rd * 0x20 + sa;
    assert w / 0x800 == p * 0x8000 + rs * 0x400 + rt * 0x20 + rd;
    assert w / 0x1_0000 == p * 0x400 + rs * 0x20 + rt;
    assert w / 0x20_0000 == p * 0x20 + rs;
  }

  /** Filling a field whose digits are all zero. */
  lemma Fill21(x: Word, r: Reg)
    requires x / 0x20_0000 % 32 == 0
    ensures x + r * 0x20_0000 < 0x1_0000_0000 && OrW(x, r * 0x20_0000) == x + r * 0x20_0000
  {
    FillReg(x, r, 21, 0x20_0000);
  }

  lemma Fill16(x: Word, r: Reg)
    requires x / 0x1_0000 % 32 == 0
    ensures x + r * 0x1_0000 < 0x1_0000_0000 && OrW(x, r * 0x1_0000) == x + r * 0x1_0000
  {
    FillReg(x, r, 16, 0x1_0000);
  }

  lemma Fill11(x: Word, r: Reg)
    requires x / 0x800 % 32 == 0
    ensures x + r * 0x800 < 0x1_0000_0000 && OrW(x, r * 0x800) == x + r * 0x800
  {
    FillReg(x, r, 11, 0x800);
  }

  lemma Fill6(x: Word, r: Reg)
    requires x / 0x40 % 32 == 0
    ensures x + r * 0x40 < 0x1_0000_0000 && OrW(x, r * 0x40) == x + r * 0x40
  {
    FillReg(x, r, 6, 0x40);
  }

  lemma FillReg(x: Word, r: Reg, k: nat, d: nat)
    requires (k == 21 && d == 0x20_0000) || (k == 16 && d == 0x1_0000) || (k == 11 && d == 0x800) ||
             (k == 6 && d == 0x40)
    requires x / d % 32 == 0
    ensures r * d < 0x1_0000_0000 && OrW(x, r * d) == x + r * d
  {
    PowersOfTwo();
    OrFillsField(x, r, k, 5);
    OrWIs(x, r * d);
  }

  lemma FillLow(x: Word, f: nat, n: nat, d: nat)
    requires (n == 16 && d == 0x1_0000) || (n == 26 && d == 0x400_0000)
    requires f < d && x % d == 0
    ensures f < 0x1_0000_0000 && OrW(x, f) == x + f
  {
    PowersOfTwo();
    DivMod(x, d);
    ShlIsMul(x / d, n);
    OrDisjoint(x / d, f, n);
    OrWIs(x, f);
  }

  // ---------- An assembled word has its fields side by side ----------

  datatype Digits = Digits(p: Six, rs: Reg, rt: Reg, rd: Reg, sa: Reg, fn: Six)

  function Value(d: Digits): Word { Pack(d.p, d.rs, d.rt, d.rd, d.sa, d.fn) }

  /** x is the field of i that goes to the low end: a jump's target, else the immediate. */
  predicate IsLow(f: Format, i: Inst, x: Digits) {
    x.p == 0 && if f.Jump? then Value(x) == i.target else x.rs == 0 && x.rt == 0 && Value(x) == Imm16(i)
  }

  /** The six digit groups of an encoding. */
  function Layout(f: Format, k: Row, i: Inst, x: Digits): Digits {
    match f
    case B1 | I1s => x.(p := k.major, rs := i.rs, rt := k.rt)
    case I1t | I2 | B2 | I2a => x.(p := k.major, rs := i.rs, rt := i.rt)
    case R1s => Digits(k.major, i.rs, 0, 0, 0, k.fn)
    case R1d => Digits(k.major, 0, 0, i.rd, 0, k.fn)
    case R2td => Digits(k.major, k.rs, i.rt, i.rd, 0, 0)
    case R2st => Digits(k.major, i.rs, i.rt, 0, 0, k.fn)
    case R2ds => Digits(k.major, i.rs, 0, i.rd, 0, k.fn)
    case R2sh => Digits(k.major, 0, i.rt, i.rd, i.shamt, k.fn)
    case R3 | R3sh => Digits(k.major, i.rs, i.rt, i.rd, 0, k.fn)
    case Jump => x.(p := k.major)
    case NoArg => Digits(k.major, k.rs, k.rt, 0, 0, k.fn)
  }

  lemma SumR(p: Six, fn: Six, rs: Reg, rt: Reg, rd: Reg, sa: Reg)
    ensures OrW(Pack(p, 0, 0, 0, 0, fn), rs * 0x20_0000) == Pack(p, rs, 0, 0, 0, fn)
    ensures OrW(Pack(p, rs, 0, 0, 0, fn), rt * 0x1_0000) == Pack(p, rs, rt, 0, 0, fn)
    ensures OrW(Pack(p, rs, rt, 0, 0, fn), rd * 0x800) == Pack(p, rs, rt, rd, 0, fn)
    ensures OrW(Pack(p, rs, rt, rd, 0, fn), sa * 0x40) == Pack(p, rs, rt, rd, sa, fn)
  {
    PackFields(p, 0, 0, 0, 0, fn);
    PackFields(p, rs, 0, 0, 0, fn);
    PackFields(p, rs, rt, 0, 0, fn);
    PackFields(p, rs, rt, rd, 0, fn);
    Fill21(Pack(p, 0, 0, 0, 0, fn), rs);
    Fill16(Pack(p, rs, 0, 0, 0, fn), rt);
    Fill11(Pack(p, rs, rt, 0, 0, fn), rd);
    Fill6(Pack(p, rs, rt, rd, 0, fn), sa);
  }

  lemma SumI(p: Six, rs: Reg, rt: Reg, imm: Word)
    requires imm < 0x1_0000
    ensures OrW(Pack(p, 0, 0, 0, 0, 0), rs * 0x20_0000) == Pack(p, rs, 0, 0, 0, 0)
    ensures OrW(Pack(p, rs, 0, 0, 0, 0), rt * 0x1_0000) == Pack(p, rs, rt, 0, 0, 0)
    ensures OrW(Pack(p, rs, rt, 0, 0, 0), imm) == Pack(p, rs, rt, 0, 0, 0) + imm
  {
    SumR(p, 0, rs, rt, 0, 0);
    PackFields(p, rs, rt, 0, 0, 0);
    FillLow(Pack(p, rs, rt, 0, 0, 0), imm, 16, 0x1_0000);
  }

  lemma SumB1(p: Six, x: Reg, rs: Reg, imm: Word)
    requires imm < 0x1_0000
    ensures OrW(Pack(p, 0, x, 0, 0, 0), rs * 0x20_0000) == Pack(p, rs, x, 0, 0, 0)
    ensures OrW(Pack(p, rs, x, 0, 0, 0), imm) == Pack(p, rs, x, 0, 0, 0) + imm
  {
    PackFields(p, 0, x, 0, 0, 0);
    PackFields(p, rs, x, 0, 0, 0);
    Fill21(Pack(p, 0, x, 0, 0, 0), rs);
    FillLow(Pack(p, rs, x, 0, 0, 0), imm, 16, 0x1_0000);
  }

  lemma SplitLow(t: nat) returns (x: Digits)
    requires t < 0x400_0000
    ensures x.p == 0 && Value(x) == t
    ensures t < 0x1_0000 ==> x.rs == 0 && x.rt == 0
  {
    var t1 := t / 0x40;
    var t2 := t1 / 32;
    var t3 := t2 / 32;
    x := Digits(0, t3 / 32, t3 % 32, t2 % 32, t1 % 32, t % 64);
  }

  lemma AssembleR(f: Format, k: Row, i: Inst, w: Word, x: Digits)
    requires IsRFormat(f) && k.format == f && Fits(k) && w == KeyOf(k)
    ensures Assemble(f, w, i) == Value(Layout(f, k, i, x))
  {
    match f
    case R1s | R2st => SumR(k.major, k.fn, i.rs, i.rt, 0, 0);
    case R1d => SumR(k.major, k.fn, 0, 0, i.rd, 0);
    case R2ds => SumR(k.major, k.fn, i.rs, 0, i.rd, 0);
    case R2sh => SumR(k.major, k.fn, 0, i.rt, i.rd, i.shamt);
    case R3 | R3sh => SumR(k.major, k.fn, i.rs, i.rt, i.rd, 0);
  }

  lemma AssembleIsLayout(f: Format, k: Row, i: Inst, w: Word, x: Digits)
    requires k.format == f && Fits(k) && w == KeyOf(k) && IsLow(f, i, x)
    ensures Assemble(f, w, i) == Value(Layout(f, k, i, x))
  {
    if IsRFormat(f) {
      AssembleR(f, k, i, w, x);
    } else if f.R2td? {
      SumR(k.major, 0, k.rs, i.rt, i.rd, 0);
    } else if f.Jump? {
      FillLow(w, i.target, 26, 0x400_0000);
    } else if IsIFormat(f) {
      SumI(k.major, i.rs, i.rt, Imm16(i));
    } else if !f.NoArg? {
      SumB1(k.major, k.rt, i.rs, Imm16(i));
    }
  }

  // ---------- Reading a layout back ----------

  /** The digits d show the same table entry as k. */
  predicate LooksAlike(k: Row, d: Digits) {
    && d.p == k.major
    && (Continues(d.p) && d.p != 1 && d.p != 0x10 && d.p != 0x12 && d.p != 0x13 ==> d.fn == k.fn)
    && (d.p == 1 ==> d.rt == k.rt)
    && (d.p == 0x10 ==> d.rs == k.rs && d.fn % 32 == k.fn % 32)
    && (d.p == 0x12 ==> d.rs == k.rs)
  }

  lemma LooksUpAlike(k: Row, d: Digits)
    requires LooksAlike(k, d)
    ensures Lookup(d.p, d.rs, d.rt, d.fn) == Lookup(k.major, k.rs, k.rt, k.fn)
  {
  }

  function LowOf(d: Digits): nat { d.rd * 0x800 + d.sa * 0x40 + d.fn }

  function JumpTarget(d: Digits): Word { d.rs % 8 * 0x20_0000 + d.rs / 16 * 0x200_0000 + d.rt * 0x1_0000 + LowOf(d) }

  lemma RegsOfDigits(d: Digits, w: Word)
    requires w == Value(d)
    ensures w / 0x400_0000 == d.p && w % 64 == d.fn && w % 32 == d.fn % 32
    ensures BinReg(w, 21) == d.rs && BinReg(w, 16) == d.rt && BinReg(w, 11) == d.rd && BinReg(w, 6) == d.sa
    ensures w % 0x1_0000 == LowOf(d)
  {
    hide Pack;
    PackFields(d.p, d.rs, d.rt, d.rd, d.sa, d.fn);
    FiveOfSix(w);
  }

  lemma FiveOfSix(w: nat)
    ensures w % 32 == w % 64 % 32
  {
    ModUnique(w, 32, w / 64 * 2 + w % 64 / 32, w % 64 % 32);
  }

  lemma TargetOfDigits(d: Digits, w: Word)
    requires w == Value(d)
    ensures TargetOf(w) == JumpTarget(d)
  {
    SplitHigh(w, d.p, d.rs, d.rt * 0x1_0000 + LowOf(d));
  }

  lemma SplitHigh(w: Word, p: Six, rs: Reg, low: nat)
    requires low < 0x20_0000 && w == p * 0x400_0000 + rs * 0x20_0000 + low
    ensures w % 0x100_0000 == rs % 8 * 0x20_0000 + low && w / 0x200_0000 % 2 == rs / 16
  {
    var q, q' := rs / 8, rs / 16;
    ModUnique(w, 0x100_0000, p * 4 + q, (rs - q * 8) * 0x20_0000 + low);
    ModUnique(w, 0x200_0000, p * 2 + q', (rs - q' * 16) * 0x20_0000 + low);
  }

  /** The fields that format f takes from these digits. */
  function Fields(f: Format, op: Op, val: Word, d: Digits): Inst {
    Take(f, op, val, d.rs, d.rt, d.rd, d.sa, LowOf(d), JumpTarget(d))
  }

  /** The layout selects the table entry k and gives back the fields of i. */
  predicate ReadsBack(f: Format, k: Row, d: Digits, i: Inst, w: Word) {
    LooksAlike(k, d) && SameIn(f, Fields(f, i.op, w, d), i)
  }

  lemma ReadsBackR(f: Format, k: Row, i: Inst, w: Word, x: Digits)
    requires IsRFormat(f) && k.format == f && Fits(k)
    ensures ReadsBack(f, k, Layout(f, k, i, x), i, w)
  {
  }

  lemma ImmReadsBack(i: Inst)
    ensures S16(Imm16(i)) == i.imm
  {
  }

  lemma ReadsBackI(f: Format, k: Row, i: Inst, w: Word, x: Digits)
    requires IsIFormat(f) && !f.Jump? && k.format == f && Fits(k) && IsLow(f, i, x)
    ensures ReadsBack(f, k, Layout(f, k, i, x), i, w)
  {
    ImmReadsBack(i);
    assert LowOf(Layout(f, k, i, x)) == Imm16(i);
  }

  lemma ReadsBackB1(f: Format, k: Row, i: Inst, w: Word, x: Digits)
    requires (f.B1? || f.I1s?) && k.format == f && Fits(k) && IsLow(f, i, x)
    ensures ReadsBack(f, k, Layout(f, k, i, x), i, w)
  {
    ImmReadsBack(i);
    assert LowOf(Layout(f, k, i, x)) == Imm16(i);
  }

  lemma ReadsBackOther(f: Format, k: Row, i: Inst, w: Word, x: Digits)
    requires (f.R2td? || f.NoArg?) && k.format == f && Fits(k)
    ensures ReadsBack(f, k, Layout(f, k, i, x), i, w)
  {
  }

  lemma LayoutReadsBack(f: Format, k: Row, i: Inst, w: Word, x: Digits)
    requires k.format == f && Fits(k) && !f.Jump? && IsLow(f, i, x)
    ensures ReadsBack(f, k, Layout(f, k, i, x), i, w)
  {
    if IsRFormat(f) { ReadsBackR(f, k, i, w, x); }
    else if IsIFormat(f) { ReadsBackI(f, k, i, w, x); }
    else if f.B1? || f.I1s? { ReadsBackB1(f, k, i, w, x); }
    else { ReadsBackOther(f, k, i, w, x); }
  }

  lemma FieldsOfDigits(f: Format, op: Op, d: Digits, w: Word)
    requires w == Value(d)
    ensures Extract(f, op, w) == Fields(f, op, w, d)
  {
    RegsOfDigits(d, w);
    TargetOfDigits(d, w);
  }

  lemma LooksUp(k: Row, d: Digits, w: Word)
    requires w == Value(d) && LooksAlike(k, d)
    ensures Lookup(w / 0x400_0000, BinReg(w, 21), BinReg(w, 16), w % 64) == Lookup(k.major, k.rs, k.rt, k.fn)
  {
    RegsOfDigits(d, w);
    LooksUpAlike(k, d);
  }

  lemma RoundTripField(f: Format, k: Row, i: Inst, w: Word)
    requires k.format == f && Fits(k) && w == Assemble(f, KeyOf(k), i) && !f.Jump?
    ensures Lookup(w / 0x400_0000, BinReg(w, 21), BinReg(w, 16), w % 64) == Lookup(k.major, k.rs, k.rt, k.fn)
    ensures SameIn(f, Extract(f, i.op, w), i)
  {
    var x := SplitLow(Imm16(i));
    AssembleIsLayout(f, k, i, KeyOf(k), x);
    LayoutReadsBack(f, k, i, w, x);
    FieldsOfDigits(f, i.op, Layout(f, k, i, x), w);
    LooksUp(k, Layout(f, k, i, x), w);
  }

  lemma JumpReadsBack(x: Digits, target: Word)
    requires x.p == 0 && Value(x) == target
    ensures JumpTarget(x) == target <==> target / 0x100_0000 % 2 == 0
  {
    var q := x.rs / 8;
    ModUnique(target, 0x100_0000, q, (x.rs - q * 8) * 0x20_0000 + x.rt * 0x1_0000 + LowOf(x));
    assert x.rs / 16 == q / 2;
  }

  lemma RoundTripJump(k: Row, i: Inst, w: Word)
    requires k.format.Jump? && Fits(k) && w == Assemble(Jump, KeyOf(k), i) && i.target < 0x400_0000
    ensures Lookup(w / 0x400_0000, BinReg(w, 21), BinReg(w, 16), w % 64) == Lookup(k.major, k.rs, k.rt, k.fn)
    ensures TargetOf(w) == i.target <==> i.target / 0x100_0000 % 2 == 0
  {
    var x := SplitLow(i.target);
    var d := x.(p := k.major);
    AssembleIsLayout(Jump, k, i, KeyOf(k), x);
    TargetOfDigits(d, w);
    JumpReadsBack(x, i.target);
    LooksUp(k, d, w);
  }

  /** Decoding undoes encoding for every integer instruction; a jump also needs bit 24 of its
      target to be clear, and then only. */
  lemma RoundTrip(i: Inst)
    requires !i.op.INVALID?
    requires FormatOf(i.op).Jump? ==> i.target < 0x400_0000
    ensures SameFields(Decode(Encode(i)), i) <==> (FormatOf(i.op).Jump? ==> i.target / 0x100_0000 % 2 == 0)
  {
    var f, k, w := FormatOf(i.op), Entry(i.op), Encode(i);
    if f.Jump? { RoundTripJump(k, i, w); } else { RoundTripField(f, k, i, w); }
    DecodeAs(i.op, w);
  }

  lemma DecodeAs(op: Op, w: Word)
    requires Lookup(w / 0x400_0000, BinReg(w, 21), BinReg(w, 16), w % 64) == op && !op.INVALID?
    ensures Decode(w) == Extract(FormatOf(op), op, w) && Decode(w).op == op
  {
  }
}
