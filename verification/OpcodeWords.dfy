/** The encodings as whole words: the fixed bits of every opcode, and the place of every field. */
module OpcodeWords {
  import opened Word
  import opened Instruction
  import opened Codec
  import opened TextData
  import opened Arithmetic
  import opened Isa

  /** The word of an instruction whose fields are all zero, as the architecture assigns it. */
  function OpcodeWord(op: Op): Word {
    match op
    case ADD => 0x0000_0020        case ADDI => 0x2000_0000       case ADDIU => 0x2400_0000
    case ADDU => 0x0000_0021       case AND => 0x0000_0024        case ANDI => 0x3000_0000
    case BEQ => 0x1000_0000        case BEQL => 0x5000_0000       case BGEZ => 0x0401_0000
    case BGEZAL => 0x0411_0000     case BGEZALL => 0x0413_0000    case BGEZL => 0x0403_0000
    case BGTZ => 0x1c00_0000       case BGTZL => 0x5c00_0000      case BLEZ => 0x1800_0000
    case BLEZL => 0x5800_0000      case BLTZ => 0x0400_0000       case BLTZAL => 0x0410_0000
    case BLTZALL => 0x0412_0000    case BLTZL => 0x0402_0000      case BNE => 0x1400_0000
    case BNEL => 0x5400_0000       case BREAK => 0x0000_000d      case CACHE => 0xbc00_0000
    case CLO => 0x7000_0021        case CLZ => 0x7000_0020        case DIV => 0x0000_001a
    case DIVU => 0x0000_001b       case ERET => 0x4200_0018       case J => 0x0800_0000
    case JAL => 0x0c00_0000        case JALR => 0x0000_0009       case JR => 0x0000_0008
    case LB => 0x8000_0000         case LBU => 0x9000_0000        case LDC2 => 0xd800_0000
    case LH => 0x8400_0000         case LHU => 0x9400_0000        case LL => 0xc000_0000
    case LUI => 0x3c00_0000        case LW => 0x8c00_0000         case LWC2 => 0xc800_0000
    case LWL => 0x8800_0000        case LWR => 0x9800_0000        case MADD => 0x7000_0000
    case MADDU => 0x7000_0001      case MFC0 => 0x4000_0000       case MFC2 => 0x4800_0000
    case MFHI => 0x0000_0010       case MFLO => 0x0000_0012       case MOVN => 0x0000_000b
    case MOVZ => 0x0000_000a       case MSUB => 0x7000_0004       case MSUBU => 0x7000_0005
    case MTC0 => 0x4080_0000       case MTC2 => 0x4880_0000       case MTHI => 0x0000_0011
    case MTLO => 0x0000_0013       case MUL => 0x7000_0002        case MULT => 0x0000_0018
    case MULTU => 0x0000_0019      case NOR => 0x0000_0027        case OR => 0x0000_0025
    case ORI => 0x3400_0000        case PREF => 0xcc00_0000       case RFE => 0x4200_0010
    case SB => 0xa000_0000         case SC => 0xe000_0000         case SDC2 => 0xf800_0000
    case SH => 0xa400_0000         case SLL => 0x0000_0000        case SLLV => 0x0000_0004
    case SLT => 0x0000_002a        case SLTI => 0x2800_0000       case SLTIU => 0x2c00_0000
    case SLTU => 0x0000_002b       case SRA => 0x0000_0003        case SRAV => 0x0000_0007
    case SRL => 0x0000_0002        case SRLV => 0x0000_0006       case SUB => 0x0000_0022
    case SUBU => 0x0000_0023       case SW => 0xac00_0000         case SWC2 => 0xe800_0000
    case SWL => 0xa800_0000        case SWR => 0xb800_0000        case SYNC => 0x0000_000f
    case SYSCALL => 0x0000_000c    case TEQ => 0x0000_0034        case TEQI => 0x040c_0000
    case TGE => 0x0000_0030        case TGEI => 0x0408_0000       case TGEIU => 0x0409_0000
    case TGEU => 0x0000_0031       case TLBP => 0x4200_0008       case TLBR => 0x4200_0001
    case TLBWI => 0x4200_0002      case TLBWR => 0x4200_0006      case TLT => 0x0000_0032
    case TLTI => 0x040a_0000       case TLTIU => 0x040b_0000      case TLTU => 0x0000_0033
    case TNE => 0x0000_0036        case TNEI => 0x040e_0000       case XOR => 0x0000_0026
    case XORI => 0x3800_0000
    case INVALID => 0x0000_0000
  }

  // Which fields an instruction has.

  predicate ThreeRegisters(op: Op) {
    op in {ADD, ADDU, AND, CLO, CLZ, MOVN, MOVZ, MUL, NOR, OR, SLLV, SLT, SLTU, SRAV, SRLV, SUB, SUBU, XOR}
  }

  /** Two registers and an immediate. */
  predicate HoldsImmediate(op: Op) {
    op in {ADDI, ADDIU, ANDI, BEQ, BEQL, BNE, BNEL, CACHE, LB, LBU, LDC2, LH, LHU, LL, LUI, LW, LWC2, LWL,
           LWR, ORI, PREF, SB, SC, SDC2, SH, SLTI, SLTIU, SW, SWC2, SWL, SWR, XORI}
  }

  /** One register and an immediate, the other register place being part of the opcode. */
  predicate TestsRegister(op: Op) {
    op in {BGEZ, BGEZAL, BGEZALL, BGEZL, BGTZ, BGTZL, BLEZ, BLEZL, BLTZ, BLTZAL, BLTZALL, BLTZL, TEQI, TGEI,
           TGEIU, TLTI, TLTIU, TNEI}
  }

  predicate TwoSources(op: Op) {
    op in {DIV, DIVU, MADD, MADDU, MSUB, MSUBU, MULT, MULTU, TEQ, TGE, TGEU, TLT, TLTU, TNE}
  }

  predicate MovesCoprocessor(op: Op) {
    op in {MFC0, MFC2, MTC0, MTC2}
  }

  predicate ByAmount(op: Op) { op in {SLL, SRA, SRL} }

  function Field(present: bool, value: int, weight: int): int { if present then value * weight else 0 }

  /** The fields, each at its place. */
  function FieldsOf(i: Inst): int {
    Field(ThreeRegisters(i.op) || HoldsImmediate(i.op) || TestsRegister(i.op) || TwoSources(i.op) ||
          i.op in {JALR, JR, MTHI, MTLO}, i.rs, 0x20_0000)
    + Field(ThreeRegisters(i.op) || HoldsImmediate(i.op) || TwoSources(i.op) || MovesCoprocessor(i.op) ||
            ByAmount(i.op), i.rt, 0x1_0000)
    + Field(ThreeRegisters(i.op) || MovesCoprocessor(i.op) || ByAmount(i.op) || i.op in {JALR, MFHI, MFLO},
            i.rd, 0x800)
    + Field(ByAmount(i.op), i.shamt, 0x40)
    + Field(HoldsImmediate(i.op) || TestsRegister(i.op), i.imm % 0x1_0000, 1)
    + Field(i.op in {J, JAL}, i.target, 1)
  }

  // ---------- The encoder's table agrees ----------

  /** The fields of a format, each at its place. */
  function FormatFields(f: Format, i: Inst): int {
    match f
    case B1 | I1s => i.rs * 0x20_0000 + i.imm % 0x1_0000
    case I1t | I2 | B2 | I2a => i.rs * 0x20_0000 + i.rt * 0x1_0000 + i.imm % 0x1_0000
    case R1s => i.rs * 0x20_0000
    case R1d => i.rd * 0x800
    case R2td => i.rt * 0x1_0000 + i.rd * 0x800
    case R2st => i.rs * 0x20_0000 + i.rt * 0x1_0000
    case R2ds => i.rs * 0x20_0000 + i.rd * 0x800
    case R2sh => i.rt * 0x1_0000 + i.rd * 0x800 + i.shamt * 0x40
    case R3 | R3sh => i.rs * 0x20_0000 + i.rt * 0x1_0000 + i.rd * 0x800
    case Jump => i.target
    case NoArg => 0
  }

  lemma LayoutAdds(f: Format, k: Row, i: Inst, x: Digits)
    requires k.format == f && Fits(k) && IsLow(f, i, x)
    ensures Value(Layout(f, k, i, x)) == KeyOf(k) + FormatFields(f, i)
  {
  }

  /** The format of the row has the fields of op. */
  predicate Shapes(op: Op, f: Format) {
    && ThreeRegisters(op) == (f.R3? || f.R3sh?) && HoldsImmediate(op) == (f.I1t? || f.I2? || f.B2? || f.I2a?)
    && TestsRegister(op) == (f.B1? || f.I1s?) && TwoSources(op) == f.R2st? && MovesCoprocessor(op) == f.R2td?
    && ByAmount(op) == f.R2sh? && op.JALR? == f.R2ds? && (op.JR? || op.MTHI? || op.MTLO?) == f.R1s?
    && (op.MFHI? || op.MFLO?) == f.R1d? && (op.J? || op.JAL?) == f.Jump?
  }

  lemma ShapesHold(f: Format, i: Inst)
    requires Shapes(i.op, f)
    ensures FormatFields(f, i) == FieldsOf(i)
  {
    hide ThreeRegisters, HoldsImmediate, TestsRegister, TwoSources, MovesCoprocessor, ByAmount;
  }

  /** The entry of op has its fixed bits, and room for its fields. */
  predicate Agrees(op: Op) {
    !op.INVALID? && KeyOf(Entry(op)) == OpcodeWord(op) && Shapes(op, FormatOf(op))
  }

  // Group by group, the fixed digits of the entries make the words, and their formats have the fields.

  lemma SumsWords(op: Op)
    requires op in {ADD, ADDU, SUB, SUBU, AND, OR, XOR, NOR, SLT, SLTU}
    ensures IsSpecial(op) && SpecialRow(op).fn == OpcodeWord(op)
  {
    assert IsSpecial(op);
  }

  lemma SumsShapes(op: Op)
    requires op in {ADD, ADDU, SUB, SUBU, AND, OR, XOR, NOR, SLT, SLTU}
    ensures IsSpecial(op) && Shapes(op, SpecialRow(op).format)
  {
    assert IsSpecial(op);
  }

  lemma ShiftsWords(op: Op)
    requires op in {SLL, SLLV, SRL, SRLV, SRA, SRAV, MOVN, MOVZ}
    ensures IsSpecial(op) && SpecialRow(op).fn == OpcodeWord(op)
  {
    assert IsSpecial(op);
  }

  lemma ShiftsShapes(op: Op)
    requires op in {SLL, SLLV, SRL, SRLV, SRA, SRAV, MOVN, MOVZ}
    ensures IsSpecial(op) && Shapes(op, SpecialRow(op).format)
  {
    assert IsSpecial(op);
  }

  lemma ProductsWords(op: Op)
    requires op in {MFHI, MFLO, MTHI, MTLO, MULT, MULTU, DIV, DIVU}
    ensures IsSpecial(op) && SpecialRow(op).fn == OpcodeWord(op)
  {
    assert IsSpecial(op);
  }

  lemma ProductsShapes(op: Op)
    requires op in {MFHI, MFLO, MTHI, MTLO, MULT, MULTU, DIV, DIVU}
    ensures IsSpecial(op) && Shapes(op, SpecialRow(op).format)
  {
    assert IsSpecial(op);
  }

  lemma CallsWords(op: Op)
    requires op in {BREAK, SYSCALL, SYNC, JR, JALR}
    ensures IsSpecial(op) && SpecialRow(op).fn == OpcodeWord(op)
  {
    assert IsSpecial(op);
  }

  lemma CallsShapes(op: Op)
    requires op in {BREAK, SYSCALL, SYNC, JR, JALR}
    ensures IsSpecial(op) && Shapes(op, SpecialRow(op).format)
  {
    assert IsSpecial(op);
  }

  lemma TrapsWords(op: Op)
    requires op in {TEQ, TNE, TGE, TGEU, TLT, TLTU}
    ensures IsSpecial(op) && SpecialRow(op).fn == OpcodeWord(op)
  {
    assert IsSpecial(op);
  }

  lemma TrapsShapes(op: Op)
    requires op in {TEQ, TNE, TGE, TGEU, TLT, TLTU}
    ensures IsSpecial(op) && Shapes(op, SpecialRow(op).format)
  {
    assert IsSpecial(op);
  }

  lemma SignsWords(op: Op)
    requires op in {BGEZ, BGEZAL, BGEZALL, BGEZL, BLTZ, BLTZAL, BLTZALL, BLTZL}
    ensures IsRegimm(op) && 0x0400_0000 + RegimmRow(op).rt * 0x1_0000 == OpcodeWord(op)
  {
    assert IsRegimm(op);
  }

  lemma SignsShapes(op: Op)
    requires op in {BGEZ, BGEZAL, BGEZALL, BGEZL, BLTZ, BLTZAL, BLTZALL, BLTZL}
    ensures IsRegimm(op) && Shapes(op, RegimmRow(op).format)
  {
    assert IsRegimm(op);
  }

  lemma TrapSignedWords(op: Op)
    requires op in {TEQI, TGEI, TLTI}
    ensures IsRegimm(op) && 0x0400_0000 + RegimmRow(op).rt * 0x1_0000 == OpcodeWord(op)
  {
    assert IsRegimm(op);
  }

  lemma TrapSignedShapes(op: Op)
    requires op in {TEQI, TGEI, TLTI}
    ensures IsRegimm(op) && Shapes(op, RegimmRow(op).format)
  {
    assert IsRegimm(op);
  }

  lemma TrapOthersWords(op: Op)
    requires op in {TGEIU, TLTIU, TNEI}
    ensures IsRegimm(op) && 0x0400_0000 + RegimmRow(op).rt * 0x1_0000 == OpcodeWord(op)
  {
    assert IsRegimm(op);
  }

  lemma TrapOthersShapes(op: Op)
    requires op in {TGEIU, TLTIU, TNEI}
    ensures IsRegimm(op) && Shapes(op, RegimmRow(op).format)
  {
    assert IsRegimm(op);
  }

  lemma PrivilegedWords(op: Op)
    requires op in {ERET, RFE, TLBP, TLBR, TLBWI, TLBWR}
    ensures IsCop(op) && CopRow(op).major * 0x400_0000 + CopRow(op).rs * 0x20_0000 + CopRow(op).fn == OpcodeWord(op)
  {
    assert IsCop(op);
  }

  lemma PrivilegedShapes(op: Op)
    requires op in {ERET, RFE, TLBP, TLBR, TLBWI, TLBWR}
    ensures IsCop(op) && Shapes(op, CopRow(op).format)
  {
    assert IsCop(op);
  }

  lemma CoprocessorsWords(op: Op)
    requires op in {MFC0, MFC2, MTC0, MTC2}
    ensures IsCop(op) && CopRow(op).major * 0x400_0000 + CopRow(op).rs * 0x20_0000 + CopRow(op).fn == OpcodeWord(op)
  {
    assert IsCop(op);
  }

  lemma CoprocessorsShapes(op: Op)
    requires op in {MFC0, MFC2, MTC0, MTC2}
    ensures IsCop(op) && Shapes(op, CopRow(op).format)
  {
    assert IsCop(op);
  }

  lemma CountsWords(op: Op)
    requires op in {CLO, CLZ, MADD, MADDU, MSUB, MSUBU, MUL}
    ensures IsSpecial2(op) && 0x7000_0000 + Special2Row(op).fn == OpcodeWord(op)
  {
    assert IsSpecial2(op);
  }

  lemma CountsShapes(op: Op)
    requires op in {CLO, CLZ, MADD, MADDU, MSUB, MSUBU, MUL}
    ensures IsSpecial2(op) && Shapes(op, Special2Row(op).format)
  {
    assert IsSpecial2(op);
  }

  lemma ImmediatesWords(op: Op)
    requires op in {ADDI, ADDIU, SLTI, SLTIU}
    ensures IsMajor(op) && MajorRow(op).major * 0x400_0000 == OpcodeWord(op)
  {
    assert IsMajor(op);
  }

  lemma ImmediatesShapes(op: Op)
    requires op in {ADDI, ADDIU, SLTI, SLTIU}
    ensures IsMajor(op) && Shapes(op, MajorRow(op).format)
  {
    assert IsMajor(op);
  }

  lemma LogicalsWords(op: Op)
    requires op in {ANDI, ORI, XORI, LUI}
    ensures IsMajor(op) && MajorRow(op).major * 0x400_0000 == OpcodeWord(op)
  {
    assert IsMajor(op);
  }

  lemma LogicalsShapes(op: Op)
    requires op in {ANDI, ORI, XORI, LUI}
    ensures IsMajor(op) && Shapes(op, MajorRow(op).format)
  {
    assert IsMajor(op);
  }

  lemma BranchesWords(op: Op)
    requires op in {BEQ, BEQL, BGTZ, BGTZL, BLEZ, BLEZL, BNE, BNEL}
    ensures IsMajor(op) && MajorRow(op).major * 0x400_0000 == OpcodeWord(op)
  {
    assert IsMajor(op);
  }

  lemma BranchesShapes(op: Op)
    requires op in {BEQ, BEQL, BGTZ, BGTZL, BLEZ, BLEZL, BNE, BNEL}
    ensures IsMajor(op) && Shapes(op, MajorRow(op).format)
  {
    assert IsMajor(op);
  }

  lemma JumpsWords(op: Op)
    requires op in {J, JAL}
    ensures IsMajor(op) && MajorRow(op).major * 0x400_0000 == OpcodeWord(op)
  {
    assert IsMajor(op);
  }

  lemma JumpsShapes(op: Op)
    requires op in {J, JAL}
    ensures IsMajor(op) && Shapes(op, MajorRow(op).format)
  {
    assert IsMajor(op);
  }

  lemma LoadsWords(op: Op)
    requires op in {CACHE, LB, LBU, LDC2, LH, LHU, LL, LW, LWC2, LWL, LWR, PREF}
    ensures IsMemory(op) && MemoryRow(op).major * 0x400_0000 == OpcodeWord(op)
  {
    assert IsMemory(op);
  }

  lemma LoadsShapes(op: Op)
    requires op in {CACHE, LB, LBU, LDC2, LH, LHU, LL, LW, LWC2, LWL, LWR, PREF}
    ensures IsMemory(op) && Shapes(op, MemoryRow(op).format)
  {
    assert IsMemory(op);
  }

  lemma StoresWords(op: Op)
    requires op in {SB, SH, SW, SWL, SWR}
    ensures IsMemory(op) && MemoryRow(op).major * 0x400_0000 == OpcodeWord(op)
  {
    assert IsMemory(op);
  }

  lemma StoresShapes(op: Op)
    requires op in {SB, SH, SW, SWL, SWR}
    ensures IsMemory(op) && Shapes(op, MemoryRow(op).format)
  {
    assert IsMemory(op);
  }

  lemma OtherStoresWords(op: Op)
    requires op in {SC, SDC2, SWC2}
    ensures IsMemory(op) && MemoryRow(op).major * 0x400_0000 == OpcodeWord(op)
  {
    assert IsMemory(op);
  }

  lemma OtherStoresShapes(op: Op)
    requires op in {SC, SDC2, SWC2}
    ensures IsMemory(op) && Shapes(op, MemoryRow(op).format)
  {
    assert IsMemory(op);
  }

  lemma SpecialEntry(op: Op)
    requires IsSpecial(op)
    ensures !op.INVALID? && Entry(op) == SpecialRow(op)
  {
    hide SpecialRow, RegimmRow, CopRow, Special2Row, MajorRow, MemoryRow, Lookup;
  }

  lemma SpecialGroups(op: Op)
    requires IsSpecial(op)
    ensures SpecialRow(op).fn == OpcodeWord(op)
    ensures Shapes(op, SpecialRow(op).format)
  {
    hide SpecialRow, OpcodeWord, Shapes;
    if op in {ADD, ADDU, SUB, SUBU, AND, OR, XOR, NOR, SLT, SLTU} {
      SumsWords(op);
      SumsShapes(op);
    } else if op in {SLL, SLLV, SRL, SRLV, SRA, SRAV, MOVN, MOVZ} {
      ShiftsWords(op);
      ShiftsShapes(op);
    } else if op in {MFHI, MFLO, MTHI, MTLO, MULT, MULTU, DIV, DIVU} {
      ProductsWords(op);
      ProductsShapes(op);
    } else if op in {BREAK, SYSCALL, SYNC, JR, JALR} {
      CallsWords(op);
      CallsShapes(op);
    } else {
      TrapsWords(op);
      TrapsShapes(op);
    }
  }

  lemma SpecialAgrees(op: Op)
    requires IsSpecial(op)
    ensures Agrees(op)
  {
    hide IsSpecial, SpecialRow, OpcodeWord, Shapes, Entry, Lookup, LookupSpecial;
    SpecialEntry(op);
    SpecialGroups(op);
  }

  lemma RegimmEntry(op: Op)
    requires IsRegimm(op)
    ensures !op.INVALID? && Entry(op) == RegimmRow(op)
  {
    hide SpecialRow, RegimmRow, CopRow, Special2Row, MajorRow, MemoryRow, Lookup;
    assert !IsSpecial(op);
  }

  lemma RegimmGroups(op: Op)
    requires IsRegimm(op)
    ensures 0x0400_0000 + RegimmRow(op).rt * 0x1_0000 == OpcodeWord(op)
    ensures Shapes(op, RegimmRow(op).format)
  {
    hide RegimmRow, OpcodeWord, Shapes;
    if op in {BGEZ, BGEZAL, BGEZALL, BGEZL, BLTZ, BLTZAL, BLTZALL, BLTZL} {
      SignsWords(op);
      SignsShapes(op);
    } else if op in {TEQI, TGEI, TLTI} {
      TrapSignedWords(op);
      TrapSignedShapes(op);
    } else {
      TrapOthersWords(op);
      TrapOthersShapes(op);
    }
  }

  lemma RegimmAgrees(op: Op)
    requires IsRegimm(op)
    ensures Agrees(op)
  {
    hide IsRegimm, RegimmRow, OpcodeWord, Shapes, Entry, Lookup, LookupRegimm;
    RegimmEntry(op);
    RegimmGroups(op);
  }

  lemma CopEntry(op: Op)
    requires IsCop(op)
    ensures !op.INVALID? && Entry(op) == CopRow(op)
  {
    hide SpecialRow, RegimmRow, CopRow, Special2Row, MajorRow, MemoryRow, Lookup;
    assert !IsSpecial(op);
    assert !IsRegimm(op);
  }

  lemma CopGroups(op: Op)
    requires IsCop(op)
    ensures CopRow(op).major * 0x400_0000 + CopRow(op).rs * 0x20_0000 + CopRow(op).fn == OpcodeWord(op)
    ensures Shapes(op, CopRow(op).format)
  {
    hide CopRow, OpcodeWord, Shapes;
    if op in {ERET, RFE, TLBP, TLBR, TLBWI, TLBWR} {
      PrivilegedWords(op);
      PrivilegedShapes(op);
    } else {
      CoprocessorsWords(op);
      CoprocessorsShapes(op);
    }
  }

  lemma CopAgrees(op: Op)
    requires IsCop(op)
    ensures Agrees(op)
  {
    hide IsCop, CopRow, OpcodeWord, Shapes, Entry, Lookup, LookupCop;
    CopEntry(op);
    CopGroups(op);
  }

  lemma Special2Entry(op: Op)
    requires IsSpecial2(op)
    ensures !op.INVALID? && Entry(op) == Special2Row(op)
  {
    hide SpecialRow, RegimmRow, CopRow, Special2Row, MajorRow, MemoryRow, Lookup;
    assert !IsSpecial(op);
    assert !IsRegimm(op);
    assert !IsCop(op);
  }

  lemma Special2Groups(op: Op)
    requires IsSpecial2(op)
    ensures 0x7000_0000 + Special2Row(op).fn == OpcodeWord(op)
    ensures Shapes(op, Special2Row(op).format)
  {
    hide Special2Row, OpcodeWord, Shapes;
    CountsWords(op);
    CountsShapes(op);
  }

  lemma Special2Agrees(op: Op)
    requires IsSpecial2(op)
    ensures Agrees(op)
  {
    hide IsSpecial2, Special2Row, OpcodeWord, Shapes, Entry, Lookup, LookupSpecial2;
    Special2Entry(op);
    Special2Groups(op);
  }

  lemma MajorEntry(op: Op)
    requires IsMajor(op)
    ensures !op.INVALID? && Entry(op) == MajorRow(op)
  {
    hide SpecialRow, RegimmRow, CopRow, Special2Row, MajorRow, MemoryRow, Lookup;
    assert !IsSpecial(op);
    assert !IsRegimm(op);
    assert !IsCop(op);
    assert !IsSpecial2(op);
  }

  lemma MajorGroups(op: Op)
    requires IsMajor(op)
    ensures MajorRow(op).major * 0x400_0000 == OpcodeWord(op)
    ensures Shapes(op, MajorRow(op).format)
  {
    hide MajorRow, OpcodeWord, Shapes;
    if op in {ADDI, ADDIU, SLTI, SLTIU} {
      ImmediatesWords(op);
      ImmediatesShapes(op);
    } else if op in {ANDI, ORI, XORI, LUI} {
      LogicalsWords(op);
      LogicalsShapes(op);
    } else if op in {BEQ, BEQL, BGTZ, BGTZL, BLEZ, BLEZL, BNE, BNEL} {
      BranchesWords(op);
      BranchesShapes(op);
    } else {
      JumpsWords(op);
      JumpsShapes(op);
    }
  }

  lemma MajorAgrees(op: Op)
    requires IsMajor(op)
    ensures Agrees(op)
  {
    hide IsMajor, MajorRow, OpcodeWord, Shapes, Entry, Lookup, LookupMajor;
    MajorEntry(op);
    MajorGroups(op);
  }

  lemma MemoryEntry(op: Op)
    requires IsMemory(op)
    ensures !op.INVALID? && Entry(op) == MemoryRow(op)
  {
    hide SpecialRow, RegimmRow, CopRow, Special2Row, MajorRow, MemoryRow, Lookup;
    assert !IsSpecial(op);
    assert !IsRegimm(op);
    assert !IsCop(op);
    assert !IsSpecial2(op);
    assert !IsMajor(op);
  }

  lemma MemoryGroups(op: Op)
    requires IsMemory(op)
    ensures MemoryRow(op).major * 0x400_0000 == OpcodeWord(op)
    ensures Shapes(op, MemoryRow(op).format)
  {
    hide MemoryRow, OpcodeWord, Shapes;
    if op in {CACHE, LB, LBU, LDC2, LH, LHU, LL, LW, LWC2, LWL, LWR, PREF} {
      LoadsWords(op);
      LoadsShapes(op);
    } else if op in {SB, SH, SW, SWL, SWR} {
      StoresWords(op);
      StoresShapes(op);
    } else {
      OtherStoresWords(op);
      OtherStoresShapes(op);
    }
  }

  lemma MemoryAgrees(op: Op)
    requires IsMemory(op)
    ensures Agrees(op)
  {
    hide IsMemory, MemoryRow, OpcodeWord, Shapes, Entry, Lookup, LookupMemory;
    MemoryEntry(op);
    MemoryGroups(op);
  }

  lemma TableAgrees(op: Op)
    requires !op.INVALID?
    ensures Agrees(op)
  {
    hide Agrees, Entry, IsSpecial, IsRegimm, IsCop, IsSpecial2, IsMajor, IsMemory;
    EveryOpcode(op);
    if IsSpecial(op) { SpecialAgrees(op); }
    else if IsRegimm(op) { RegimmAgrees(op); }
    else if IsCop(op) { CopAgrees(op); }
    else if IsSpecial2(op) { Special2Agrees(op); }
    else if IsMajor(op) { MajorAgrees(op); }
    else { MemoryAgrees(op); }
  }

  lemma EveryOpcode(op: Op)
    requires !op.INVALID?
    ensures IsSpecial(op) || IsRegimm(op) || IsCop(op) || IsSpecial2(op) || IsMajor(op) || IsMemory(op)
  {
  }

  // ---------- Whole words ----------

  /** An encoding is the word of its opcode and the fields at their places. */
  lemma EncodingIs(i: Inst)
    requires !i.op.INVALID? && (IsJump(i.op) ==> i.target < 0x400_0000)
    ensures Encode(i) == OpcodeWord(i.op) + FieldsOf(i)
  {
    hide OpcodeWord, Entry, Shapes, FieldsOf, FormatFields, Assemble, Layout, Fits, KeyOf, Lookup;
    TableAgrees(i.op);
    var f, k := FormatOf(i.op), Entry(i.op);
    JumpShape(i.op, f);
    var x := SplitLow(if f.Jump? then i.target else Imm16(i));
    AssembleIsLayout(f, k, i, KeyOf(k), x);
    LayoutAdds(f, k, i, x);
    ShapesHold(f, i);
  }

  lemma JumpShape(op: Op, f: Format)
    requires Shapes(op, f)
    ensures f.Jump? <==> IsJump(op)
  {
    hide ThreeRegisters, HoldsImmediate, TestsRegister, TwoSources, MovesCoprocessor, ByAmount;
  }

  function Bare(op: Op): Inst { Inst(op, 0, 0, 0, 0, 0, 0, 0, None) }

  /** With no fields it is the architecture's word, which decodes to that opcode alone. */
  lemma WordDecodes(op: Op)
    requires !op.INVALID?
    ensures Encode(Bare(op)) == OpcodeWord(op) && Decode(OpcodeWord(op)).op == op
  {
    hide OpcodeWord, Entry, Encode, Decode;
    EncodingIs(Bare(op));
    RoundTrip(Bare(op));
  }

  /** The unsigned form follows the signed one. */
  predicate UnsignedForm(op: Op, u: Op) {
    || (op.ADD? && u.ADDU?) || (op.ADDI? && u.ADDIU?) || (op.SUB? && u.SUBU?) || (op.SLT? && u.SLTU?)
    || (op.SLTI? && u.SLTIU?) || (op.MULT? && u.MULTU?) || (op.DIV? && u.DIVU?) || (op.MADD? && u.MADDU?)
    || (op.MSUB? && u.MSUBU?) || (op.TGE? && u.TGEU?) || (op.TLT? && u.TLTU?) || (op.TGEI? && u.TGEIU?)
    || (op.TLTI? && u.TLTIU?)
  }

  /** The register form r and the immediate form op of one operation. */
  predicate ImmediateForm(r: Op, op: Op) {
    || (r.ADD? && op.ADDI?) || (r.ADDU? && op.ADDIU?) || (r.SLT? && op.SLTI?) || (r.SLTU? && op.SLTIU?)
    || (r.AND? && op.ANDI?) || (r.OR? && op.ORI?) || (r.XOR? && op.XORI?)
  }

  predicate TrapForm(r: Op, op: Op) {
    || (r.TEQ? && op.TEQI?) || (r.TNE? && op.TNEI?) || (r.TGE? && op.TGEI?) || (r.TGEU? && op.TGEIU?)
    || (r.TLT? && op.TLTI?) || (r.TLTU? && op.TLTIU?)
  }

  predicate StoreForm(l: Op, op: Op) {
    || (l.LB? && op.SB?) || (l.LH? && op.SH?) || (l.LW? && op.SW?) || (l.LWL? && op.SWL?) || (l.LWR? && op.SWR?)
    || (l.LL? && op.SC?) || (l.LWC2? && op.SWC2?) || (l.LDC2? && op.SDC2?)
  }

  // The fields of each kind of instruction.

  lemma ThreeFields(i: Inst)
    requires ThreeRegisters(i.op)
    ensures FieldsOf(i) == i.rs * 0x20_0000 + i.rt * 0x1_0000 + i.rd * 0x800
  {
    assert !HoldsImmediate(i.op) && !TestsRegister(i.op) && !ByAmount(i.op);
  }

  lemma ImmediateFields(i: Inst)
    requires HoldsImmediate(i.op)
    ensures FieldsOf(i) == i.rs * 0x20_0000 + i.rt * 0x1_0000 + i.imm % 0x1_0000
  {
    assert !ThreeRegisters(i.op) && !MovesCoprocessor(i.op) && !ByAmount(i.op);
  }

  lemma TestFields(i: Inst)
    requires TestsRegister(i.op)
    ensures FieldsOf(i) == i.rs * 0x20_0000 + i.imm % 0x1_0000
  {
    assert !ThreeRegisters(i.op) && !HoldsImmediate(i.op) && !TwoSources(i.op);
    assert !MovesCoprocessor(i.op) && !ByAmount(i.op);
  }

  lemma SourceFields(i: Inst)
    requires TwoSources(i.op)
    ensures FieldsOf(i) == i.rs * 0x20_0000 + i.rt * 0x1_0000
  {
    assert !ThreeRegisters(i.op) && !HoldsImmediate(i.op) && !TestsRegister(i.op);
    assert !MovesCoprocessor(i.op) && !ByAmount(i.op);
  }

  /** Both have the same fields. */
  predicate SameKind(op: Op, u: Op) {
    || (ThreeRegisters(op) && ThreeRegisters(u)) || (HoldsImmediate(op) && HoldsImmediate(u))
    || (TestsRegister(op) && TestsRegister(u)) || (TwoSources(op) && TwoSources(u))
  }

  lemma NoJump(op: Op)
    requires ThreeRegisters(op) || HoldsImmediate(op) || TestsRegister(op) || TwoSources(op)
    ensures !op.INVALID? && !IsJump(op)
  {
  }

  lemma EncodingsDiffer(i: Inst, u: Op)
    requires SameKind(i.op, u)
    ensures Encode(i.(op := u)) - Encode(i) == OpcodeWord(u) - OpcodeWord(i.op)
  {
    hide Encode, OpcodeWord, FieldsOf, ThreeRegisters, HoldsImmediate, TestsRegister, TwoSources, IsJump;
    var j := i.(op := u);
    NoJump(i.op);
    NoJump(u);
    EncodingIs(i);
    EncodingIs(j);
    if ThreeRegisters(i.op) && ThreeRegisters(u) { ThreeFields(i); ThreeFields(j); }
    else if HoldsImmediate(i.op) && HoldsImmediate(u) { ImmediateFields(i); ImmediateFields(j); }
    else if TestsRegister(i.op) && TestsRegister(u) { TestFields(i); TestFields(j); }
    else { SourceFields(i); SourceFields(j); }
  }

  /** The opcode digits of an unsigned form are those of the signed form plus 1, wherever the format
      has them, */
  lemma UnsignedFollows(i: Inst, u: Op)
    requires UnsignedForm(i.op, u)
    ensures Encode(i.(op := u)) - Encode(i) ==
            if i.op.ADDI? || i.op.SLTI? then 0x400_0000 else if i.op.TGEI? || i.op.TLTI? then 0x1_0000 else 1
  {
    hide Encode, OpcodeWord;
    UnsignedKind(i.op, u);
    UnsignedWords(i.op, u);
    EncodingsDiffer(i, u);
  }

  lemma UnsignedKind(op: Op, u: Op)
    requires UnsignedForm(op, u)
    ensures SameKind(op, u)
  {
  }

  lemma UnsignedWords(op: Op, u: Op)
    requires UnsignedForm(op, u)
    ensures OpcodeWord(u) - OpcodeWord(op) ==
            if op.ADDI? || op.SLTI? then 0x400_0000 else if op.TGEI? || op.TLTI? then 0x1_0000 else 1
  {
    hide OpcodeWord, UnsignedForm, IsSpecial, IsSpecial2, IsMajor, IsRegimm, Shapes, SpecialRow, Special2Row, MajorRow, RegimmRow;
    if op.ADDI? || op.SLTI? {
      UnsignedMajor(op, u);
      MajorGroups(op);
      MajorGroups(u);
    } else if op.TGEI? || op.TLTI? {
      UnsignedRegimm(op, u);
      RegimmGroups(op);
      RegimmGroups(u);
    } else if op.MADD? || op.MSUB? {
      UnsignedSpecial2(op, u);
      Special2Groups(op);
      Special2Groups(u);
    } else {
      UnsignedRest(op, u);
      UnsignedSpecial(op, u);
      SpecialGroups(op);
      SpecialGroups(u);
    }
  }

  lemma UnsignedRest(op: Op, u: Op)
    requires UnsignedForm(op, u) && !op.ADDI? && !op.SLTI? && !op.TGEI? && !op.TLTI? && !op.MADD? && !op.MSUB?
    ensures op.ADD? || op.SUB? || op.SLT? || op.MULT? || op.DIV? || op.TGE? || op.TLT?
  {
  }

  lemma UnsignedMajor(op: Op, u: Op)
    requires UnsignedForm(op, u) && (op.ADDI? || op.SLTI?)
    ensures IsMajor(op) && IsMajor(u) && MajorRow(u).major == MajorRow(op).major + 1
  {
  }

  lemma UnsignedRegimm(op: Op, u: Op)
    requires UnsignedForm(op, u) && (op.TGEI? || op.TLTI?)
    ensures IsRegimm(op) && IsRegimm(u) && RegimmRow(u).rt == RegimmRow(op).rt + 1
  {
  }

  lemma UnsignedSpecial2(op: Op, u: Op)
    requires UnsignedForm(op, u) && (op.MADD? || op.MSUB?)
    ensures IsSpecial2(op) && IsSpecial2(u) && Special2Row(u).fn == Special2Row(op).fn + 1
  {
  }

  lemma UnsignedSpecial(op: Op, u: Op)
    requires UnsignedForm(op, u) && (op.ADD? || op.SUB? || op.SLT? || op.MULT? || op.DIV? || op.TGE? || op.TLT?)
    ensures IsSpecial(op) && IsSpecial(u) && SpecialRow(u).fn == SpecialRow(op).fn + 1
  {
    hide UnsignedForm, SpecialRow;
    if op.ADD? || op.SUB? || op.SLT? { UnsignedSums(op, u); } else { UnsignedProducts(op, u); }
  }

  lemma UnsignedSums(op: Op, u: Op)
    requires UnsignedForm(op, u) && (op.ADD? || op.SUB? || op.SLT?)
    ensures IsSpecial(op) && IsSpecial(u) && SpecialRow(u).fn == SpecialRow(op).fn + 1
  {
    assert IsSpecial(op) && IsSpecial(u);
  }

  lemma UnsignedProducts(op: Op, u: Op)
    requires UnsignedForm(op, u) && (op.MULT? || op.DIV? || op.TGE? || op.TLT?)
    ensures IsSpecial(op) && IsSpecial(u) && SpecialRow(u).fn == SpecialRow(op).fn + 1
  {
    assert IsSpecial(op) && IsSpecial(u);
  }

  /** those of SUB are those of ADD plus 2, */
  lemma SubFollows(i: Inst)
    requires i.op.ADD?
    ensures Encode(i.(op := SUB)) - Encode(i) == 2
  {
    hide Encode;
    EncodingsDiffer(i, SUB);
  }

  /** those of a store are those of the load plus 8, */
  lemma StoreFollows(i: Inst, op: Op)
    requires StoreForm(i.op, op)
    ensures Encode(i.(op := op)) - Encode(i) == 0x2000_0000
  {
    hide Encode, OpcodeWord;
    StoreKind(i.op, op);
    StoreWords(i.op, op);
    EncodingsDiffer(i, op);
  }

  lemma StoreKind(l: Op, op: Op)
    requires StoreForm(l, op)
    ensures SameKind(l, op)
  {
    hide ThreeRegisters, TestsRegister, TwoSources;
  }

  lemma StoreWords(l: Op, op: Op)
    requires StoreForm(l, op)
    ensures OpcodeWord(op) - OpcodeWord(l) == 0x2000_0000
  {
    hide OpcodeWord, StoreForm, IsMemory, Shapes, MemoryRow;
    StoreMajors(l, op);
    MemoryGroups(l);
    MemoryGroups(op);
  }

  lemma StoreMajors(l: Op, op: Op)
    requires StoreForm(l, op)
    ensures IsMemory(l) && IsMemory(op) && MemoryRow(op).major == MemoryRow(l).major + 8
  {
  }

  /** and an immediate form shares the last three with the register form. */
  lemma ImmediateShares(r: Inst, i: Inst)
    requires ImmediateForm(r.op, i.op)
    ensures Encode(i) / 0x400_0000 % 8 == Encode(r) % 8
  {
    hide Encode, OpcodeWord, FieldsOf, ThreeRegisters, HoldsImmediate, TestsRegister, TwoSources, IsJump, ImmediateForm;
    ImmediateKind(r.op, i.op);
    NoJump(r.op);
    NoJump(i.op);
    EncodingIs(r);
    EncodingIs(i);
    ThreeFields(r);
    ImmediateFields(i);
    var p := ImmediateWords(r.op, i.op);
    ModUnique(Encode(i), 0x400_0000, p, FieldsOf(i));
    ModUnique(Encode(r), 8, OpcodeWord(r.op) / 8 + r.rs * 0x4_0000 + r.rt * 0x2000 + r.rd * 0x100, OpcodeWord(r.op) % 8);
  }

  lemma ImmediateKind(r: Op, op: Op)
    requires ImmediateForm(r, op)
    ensures ThreeRegisters(r) && HoldsImmediate(op)
  {
  }

  lemma ImmediateWords(r: Op, op: Op) returns (p: nat)
    requires ImmediateForm(r, op)
    ensures OpcodeWord(op) == p * 0x400_0000 && p % 8 == OpcodeWord(r) % 8
  {
    hide OpcodeWord, ImmediateForm, IsSpecial, IsMajor, Shapes, SpecialRow, MajorRow;
    ImmediateMajors(r, op);
    SpecialGroups(r);
    MajorGroups(op);
    p := MajorRow(op).major;
  }

  lemma ImmediateMajors(r: Op, op: Op)
    requires ImmediateForm(r, op)
    ensures IsSpecial(r) && IsMajor(op) && MajorRow(op).major % 8 == SpecialRow(r).fn % 8
  {
    assert IsSpecial(r) && IsMajor(op);
  }

  lemma TrapShares(r: Inst, i: Inst)
    requires TrapForm(r.op, i.op)
    ensures Encode(i) / 0x1_0000 % 8 == Encode(r) % 8
  {
    hide Encode, OpcodeWord, FieldsOf, ThreeRegisters, HoldsImmediate, TestsRegister, TwoSources, IsJump, TrapForm;
    TrapKind(r.op, i.op);
    NoJump(r.op);
    NoJump(i.op);
    EncodingIs(r);
    EncodingIs(i);
    SourceFields(r);
    TestFields(i);
    var t := TrapWords(r.op, i.op);
    ModUnique(Encode(i), 0x1_0000, 0x400 + t + i.rs * 0x20, i.imm % 0x1_0000);
    ModUnique(0x400 + t + i.rs * 0x20, 8, 0x80 + t / 8 + i.rs * 4, t % 8);
    ModUnique(Encode(r), 8, OpcodeWord(r.op) / 8 + r.rs * 0x4_0000 + r.rt * 0x2000, OpcodeWord(r.op) % 8);
  }

  lemma TrapKind(r: Op, op: Op)
    requires TrapForm(r, op)
    ensures TwoSources(r) && TestsRegister(op)
  {
  }

  lemma TrapWords(r: Op, op: Op) returns (t: nat)
    requires TrapForm(r, op)
    ensures OpcodeWord(op) == 0x0400_0000 + t * 0x1_0000 && t % 8 == OpcodeWord(r) % 8
  {
    hide OpcodeWord, TrapForm, IsSpecial, IsRegimm, Shapes, SpecialRow, RegimmRow;
    TrapDigits(r, op);
    SpecialGroups(r);
    RegimmGroups(op);
    t := RegimmRow(op).rt;
  }

  lemma TrapDigits(r: Op, op: Op)
    requires TrapForm(r, op)
    ensures IsSpecial(r) && IsRegimm(op) && RegimmRow(op).rt % 8 == SpecialRow(r).fn % 8
  {
    assert IsSpecial(r) && IsRegimm(op);
  }

  // ---------- From the word in memory to its effect ----------

  lemma ComputingFields(op: Op, f: Format, i: Inst, j: Inst)
    requires ByNumbers(op) || ByDigits(op)
    requires Shapes(op, f) && SameIn(f, j, i)
    ensures !f.Jump? && !op.INVALID?
    ensures if TakesImmediate(op) then j.rt == i.rt && j.imm == i.imm else j.rt == i.rt && j.rd == i.rd
    ensures if op in {SLL, SRL, SRA} then j.shamt == i.shamt else j.rs == i.rs
  {
  }

  /** The word of a computing instruction, stored into an occupied slot of text and fetched, names the
      registers of i and writes what its operation means. */
  lemma StoredComputes(s: Sys, a: Word, i: Inst, w: Word, t: Sys, vs: Word, vt: Word) returns (j: Inst, b: Word, r: Word)
    requires ValidMemory(s.mem) && (ByNumbers(i.op) || ByDigits(i.op)) && !Overflows(i, vs, vt)
    requires w == OpcodeWord(i.op) + FieldsOf(i) && Put(s, TextStore(a, Word4, w)) == Some(t)
    ensures Fetch(t, a) == Fetched(Slot.Some(j), t)
    ensures j.rt == i.rt && (i.op !in {SLL, SRL, SRA} ==> j.rs == i.rs)
    ensures if TakesImmediate(i.op) then StandsFor(i.op, i.imm, b) else b == vt
    ensures Means(i.op, First(i, vs), b, r)
    ensures Exec(j, vs, vt, t) == Done(Some(RegWrite(if TakesImmediate(i.op) then i.rt else i.rd, r)), None, t)
  {
    hide OpcodeWord, FieldsOf, ByNumbers, ByDigits, TakesImmediate, Means, StandsFor, Exec, IsShift, Put, Fetch;
    hide ValidMemory, Overflows;
    ComputingOpcode(i.op);
    j := StoredWord(s, a, i, w, t);
    SameOverflow(i, j, vs, vt);
    b, r := ExecComputes(j, vs, vt, t);
  }

  /** A computing instruction is fetched as it was stored, up to the fields that it does not have. */
  lemma StoredWord(s: Sys, a: Word, i: Inst, w: Word, t: Sys) returns (j: Inst)
    requires ValidMemory(s.mem) && (ByNumbers(i.op) || ByDigits(i.op))
    requires w == OpcodeWord(i.op) + FieldsOf(i) && Put(s, TextStore(a, Word4, w)) == Some(t)
    ensures Fetch(t, a) == Fetched(Slot.Some(j), t) && j.op == i.op
    ensures if TakesImmediate(i.op) then j.rt == i.rt && j.imm == i.imm else j.rt == i.rt && j.rd == i.rd
    ensures if i.op in {SLL, SRL, SRA} then j.shamt == i.shamt else j.rs == i.rs
  {
    hide OpcodeWord, FieldsOf, Shapes, ByNumbers, ByDigits, TakesImmediate, Encode, Decode, Entry, SameIn, Put, Fetch;
    hide ValidMemory, IsJump;
    ComputingOpcode(i.op);
    TableAgrees(i.op);
    EncodingIs(i);
    JumpShape(i.op, FormatOf(i.op));
    StoredIsFetched(s, a, i, t);
    j := Fetch(t, a).slot.value;
    ComputingFields(i.op, FormatOf(i.op), i, j);
  }

  lemma ComputingOpcode(op: Op)
    requires ByNumbers(op) || ByDigits(op)
    ensures !op.INVALID? && !IsJump(op) && (op.ADDI? ==> TakesImmediate(op))
  {
  }

  lemma SameOverflow(i: Inst, j: Inst, vs: Word, vt: Word)
    requires j.op == i.op && (i.op.ADDI? ==> j.imm == i.imm)
    ensures Overflows(i, vs, vt) == Overflows(j, vs, vt)
  {
  }

  /** So the word 0x00000021 with three registers adds. */
  lemma StoredAdduAdds(s: Sys, a: Word, rs: Reg, rt: Reg, rd: Reg, t: Sys, vs: Word, vt: Word) returns (j: Inst, r: Word)
    requires ValidMemory(s.mem)
    requires Put(s, TextStore(a, Word4, 0x21 + rs * 0x20_0000 + rt * 0x1_0000 + rd * 0x800)) == Some(t)
    ensures Fetch(t, a) == Fetched(Slot.Some(j), t) && j.rs == rs && j.rt == rt
    ensures Exec(j, vs, vt, t) == Done(Some(RegWrite(rd, r)), None, t) && (vs + vt - r) % 0x1_0000_0000 == 0
  {
    hide FieldsOf, Exec, Put, Fetch, ValidMemory;
    var i, b := Inst(ADDU, rs, rt, rd, 0, 0, 0, 0, None), 0;
    ThreeFields(i);
    j, b, r := StoredComputes(s, a, i, 0x21 + rs * 0x20_0000 + rt * 0x1_0000 + rd * 0x800, t, vs, vt);
  }
}
