/** Reference definition of the machine: one step of the architecture over a flat,
    little-endian byte memory.  Arithmetic is stated on signed and unsigned integers, the
    multiplier as a 64-bit product, the unaligned accesses as bytes: none of it mentions how the
    interpreter computes it. */
module Isa {
  import opened Word
  import opened Instruction
  import opened Codec

  // ---------- Address map ----------

  const TEXT_BOT: Word := 0x0040_0000
  const DATA_BOT: Word := 0x1000_0000
  const STACK_TOP: Word := 0x8000_0000
  const K_TEXT_BOT: Word := 0x8000_0000
  const K_DATA_BOT: Word := 0x9000_0000
  const SPECIAL_BOT: Word := 0xfffe_0000
  const SPECIAL_TOP: Word := 0xffff_0000
  const EXCEPTION_ADDR: Word := 0x8000_0180
  const MAX_GROWTH: int := 0x100_0000

  // ---------- Exception codes and CP0 registers ----------

  const EXC_ADEL := 4
  const EXC_ADES := 5
  const EXC_IBE := 6
  const EXC_DBE := 7
  const EXC_BP := 9
  const EXC_RI := 10
  const EXC_CPU := 11
  const EXC_OV := 12
  const EXC_TR := 13
  const LAST_REAL_EXCEPT := 30

  const BAD_VADDR := 8
  const COMPARE := 11
  const STATUS := 12
  const CAUSE := 13
  const EPC := 14
  const CONFIG := 16

  type Bank = s: seq<Word> | |s| == 32 witness seq(32, _ => 0)

  // ---------- Memory ----------

  /** A byte never stored to reads as zero, whether or not its segment has grown to it yet. */
  datatype Memory = Memory(bytes: map<Word, Byte>, dataTop: Word, stackBot: Word, kDataTop: Word,
                           dataLimit: int, stackLimit: int, text: seq<Slot>, kText: seq<Slot>)

  predicate InData(m: Memory, a: int) { DATA_BOT <= a < m.dataTop }
  predicate InStack(m: Memory, a: int) { m.stackBot <= a < STACK_TOP }
  predicate InKData(m: Memory, a: int) { K_DATA_BOT <= a < m.kDataTop }
  predicate InSpecial(a: int) { SPECIAL_BOT <= a < SPECIAL_TOP }

  predicate Mapped(m: Memory, a: int) {
    InData(m, a) || InStack(m, a) || InKData(m, a) || InSpecial(a)
  }

  predicate InText(m: Memory, a: int) { TEXT_BOT <= a < TEXT_BOT + 4 * |m.text| }
  predicate InKText(m: Memory, a: int) { K_TEXT_BOT <= a < K_TEXT_BOT + 4 * |m.kText| }

  /** The segments are word-aligned and ordered, and only mapped addresses have been stored to. */
  ghost predicate ValidMemory(m: Memory) {
    && TEXT_BOT + 4 * |m.text| <= DATA_BOT <= m.dataTop <= m.stackBot <= STACK_TOP
    && K_TEXT_BOT + 4 * |m.kText| <= K_DATA_BOT <= m.kDataTop <= SPECIAL_BOT
    && m.dataTop % 4 == 0 && m.stackBot % 4 == 0 && m.kDataTop % 4 == 0
    && m.dataTop - DATA_BOT <= m.dataLimit && STACK_TOP - m.stackBot <= m.stackLimit
    && m.dataLimit + m.stackLimit <= STACK_TOP - DATA_BOT
    && forall a :: a in m.bytes ==> Mapped(m, a)
  }

  datatype Size = Byte1 | Half2 | Word4

  function Bytes(z: Size): nat { match z case Byte1 => 1 case Half2 => 2 case Word4 => 4 }

  function ByteOf(w: Word, k: nat): Byte {
    if k == 0 then w % 256
    else if k == 1 then w / 0x100 % 256
    else if k == 2 then w / 0x1_0000 % 256
    else w / 0x100_0000 % 256
  }

  function FromBytes(b0: Byte, b1: Byte, b2: Byte, b3: Byte): Word {
    b0 + 0x100 * b1 + 0x1_0000 * b2 + 0x100_0000 * b3
  }

  function ByteAt(m: Memory, a: int): Byte { if a in m.bytes then m.bytes[a] else 0 }

  /** The little-endian number in the z bytes from a. */
  function LoadBytes(m: Memory, a: int, z: Size): Word {
    var b := ByteAt(m, a);
    if z.Byte1? then b
    else if z.Half2? then b + 0x100 * ByteAt(m, a + 1)
    else b + 0x100 * ByteAt(m, a + 1) + 0x1_0000 * ByteAt(m, a + 2) + 0x100_0000 * ByteAt(m, a + 3)
  }

  function StoreBytes(m: Memory, a: int, z: Size, v: Word): Memory
    requires 0 <= a && a + Bytes(z) <= 0x1_0000_0000
  {
    var m1 := m.(bytes := m.bytes[a := ByteOf(v, 0)]);
    if z.Byte1? then m1
    else
      var m2 := m1.(bytes := m1.bytes[a + 1 := ByteOf(v, 1)]);
      if z.Half2? then m2
      else m2.(bytes := m2.bytes[a + 2 := ByteOf(v, 2)][a + 3 := ByteOf(v, 3)])
  }

  /** The zone just below the stack in which an access grows the stack. */
  predicate InGrowthZone(m: Memory, a: Word) {
    m.dataTop < a < m.stackBot && a > Wrap(m.stackBot - MAX_GROWTH)
  }

  function RoundUp4(n: int): int { (n + 3) / 4 * 4 }

  /** Stack size after growing by `addl` bytes: at least double. */
  function GrownStack(stackBot: Word, addl: int): int {
    var oldSize := STACK_TOP - stackBot;
    oldSize + if RoundUp4(addl) > oldSize then RoundUp4(addl) else oldSize
  }

  /** The memory after an access at a in the growth zone, or None past the stack limit. */
  function GrowStack(m: Memory, a: Word): Option<Memory> {
    var bot := STACK_TOP - GrownStack(m.stackBot, m.stackBot - a + 4);
    if STACK_TOP - bot > m.stackLimit || !(0 <= bot < 0x1_0000_0000) then None else Some(m.(stackBot := bot))
  }

  /** Sbrk: extend the data segment, in whole words, or None past the data limit. */
  function GrowData(m: Memory, addl: int): Option<Memory> {
    var top := m.dataTop + RoundUp4(addl);
    if addl < 0 || top - DATA_BOT > m.dataLimit || top >= 0x1_0000_0000 then None else Some(m.(dataTop := top))
  }

  // ---------- State ----------

  /** Everything except the general registers. `syms` gives the address of every label, 0 while
      it is undefined. */
  datatype Sys = Sys(hi: Word, lo: Word, pc: Word, cp0: Bank, exc: bool, mem: Memory,
                     syms: map<string, Word>)

  datatype State = State(r: Bank, sys: Sys)

  datatype RegWrite = RegWrite(reg: Reg, value: Word)

  /** What one instruction does: it may write one register, and it may load one. */
  datatype Outcome =
    | Abort
    | Return(sys: Sys)
    | Done(wr: Option<RegWrite>, ld: Option<RegWrite>, sys: Sys)

  predicate Exl(status: Word) { (status / 2) % 2 == 1 }

  function SetCode(cause: Word, code: Reg): Word { cause - (cause / 4 % 32) * 4 + code * 4 }

  function Raise(s: Sys, code: Reg): Sys {
    var status := s.cp0[STATUS];
    s.(exc := true,
       cp0 := s.cp0[EPC := if Exl(status) then s.cp0[EPC] else s.pc - s.pc % 4]
                   [CAUSE := SetCode(s.cp0[CAUSE], code)]
                   [STATUS := if Exl(status) then status else status + 2])
  }

  function Fault(s: Sys, code: Reg, a: Word): Sys {
    var t := Raise(s, code);
    t.(cp0 := t.cp0[BAD_VADDR := a])
  }

  /** Entering the handler. */
  function Handle(s: Sys): Sys { s.(exc := false, pc := EXCEPTION_ADDR) }

  /** After an instruction: advance, and enter the handler if it raised an exception. A cause
      word with a bit above its exception code reads as a code past the last real one, and then
      EPC is set again. */
  function Finish(s: Sys): Sys {
    var t := s.(pc := Wrap(s.pc + 4));
    if !s.exc then t
    else if s.cp0[CAUSE] / 4 > LAST_REAL_EXCEPT
    then Handle(t.(cp0 := t.cp0[EPC := s.pc]))
    else Handle(t)
  }

  // ---------- Data accesses ----------

  datatype ReadResult = NoRead | Read(value: Word, sys: Sys)

  /** What a load delivers for v: bytes and halves are sign-extended. */
  function SignExtend(v: Word, z: Size): Word {
    if z.Byte1? && v >= 0x80 then Wrap(v - 0x100)
    else if z.Half2? && v >= 0x8000 then Wrap(v - 0x1_0000)
    else v
  }

  /** The z bytes of w at byte offset k. */
  function Field(w: Word, k: nat, z: Size): Word {
    if z.Byte1? then ByteOf(w, k)
    else if z.Half2? then (if k < 2 then w % 0x1_0000 else w / 0x1_0000)
    else w
  }

  /** Byte j of w after storing v as a z at byte offset k. */
  function Patched(w: Word, k: nat, z: Size, v: Word, j: nat): Byte {
    if k <= j < k + Bytes(z) then ByteOf(v, j - k) else ByteOf(w, j)
  }

  function SetField(w: Word, k: nat, z: Size, v: Word): Word {
    FromBytes(Patched(w, k, z, v, 0), Patched(w, k, z, v, 1), Patched(w, k, z, v, 2), Patched(w, k, z, v, 3))
  }

  function ReadMem(s: Sys, a: Word, z: Size): ReadResult {
    if a % Bytes(z) != 0 then Read(0, Fault(s, EXC_ADEL, a))
    else if Mapped(s.mem, a) then Read(SignExtend(LoadBytes(s.mem, a, z), z), s)
    else if InText(s.mem, a) then
      match s.mem.text[(a - TEXT_BOT) / 4]
      case None => if z.Word4? then Read(0, s) else NoRead
      case Some(i) => Read(Field(i.encoding, a % 4, z), s)
    else if InGrowthZone(s.mem, a) then
      match GrowStack(s.mem, a)
      case None => NoRead
      case Some(m) => Read(0, s.(mem := m))
    else Read(0, Fault(s, EXC_DBE, a))
  }

  /** A store; None when the simulator aborts. A store into user text replaces the instruction
      by the decoding of its changed encoding. */
  function WriteMem(s: Sys, a: Word, z: Size, v: Word): Option<Sys> {
    var m := s.mem;
    if a % Bytes(z) != 0 then Some(Fault(s, EXC_ADES, a))
    else if Mapped(m, a) then
      if a + Bytes(z) > 0x1_0000_0000 then None else Some(s.(mem := StoreBytes(m, a, z, v)))
    else if InText(m, a) then
      var k := (a - TEXT_BOT) / 4;
      if z.Word4? then Some(s.(mem := m.(text := m.text[k := Slot.Some(Decode(v))])))
      else
        match m.text[k]
        case None => None
        case Some(i) =>
          Some(s.(mem := m.(text := m.text[k := Slot.Some(Decode(SetField(i.encoding, a % 4, z, v)))])))
    else if InGrowthZone(m, a) then
      match GrowStack(m, a)
      case None => None
      case Some(m') => if a + Bytes(z) > 0x1_0000_0000 then None else Some(s.(mem := StoreBytes(m', a, z, v)))
    else Some(Fault(s, EXC_DBE, a))
  }

  // ---------- Loads and stores ----------

  /** LWL: the bytes of the word up to address k (mod 4) become the high bytes of the register. */
  function MergeLeft(word: Word, reg: Word, k: int): Word {
    if k == 0 then word % 0x100 * 0x100_0000 + reg % 0x100_0000
    else if k == 1 then word % 0x1_0000 * 0x1_0000 + reg % 0x1_0000
    else if k == 2 then word % 0x100_0000 * 0x100 + reg % 0x100
    else word
  }

  /** LWR: the bytes of the word from address k (mod 4) on become the low bytes of the register. */
  function MergeRight(word: Word, reg: Word, k: int): Word {
    if k == 0 then word
    else if k == 1 then reg / 0x100_0000 * 0x100_0000 + word / 0x100
    else if k == 2 then reg / 0x1_0000 * 0x1_0000 + word / 0x1_0000
    else reg / 0x100 * 0x100 + word / 0x100_0000
  }

  /** SWL: the high bytes of the register replace the bytes of the word up to address k. */
  function StoreLeft(word: Word, reg: Word, k: int): Word {
    if k == 0 then word - word % 0x100 + reg / 0x100_0000
    else if k == 1 then word - word % 0x1_0000 + reg / 0x1_0000
    else if k == 2 then word - word % 0x100_0000 + reg / 0x100
    else reg
  }

  /** SWR: the low bytes of the register replace the bytes of the word from address k on. */
  function StoreRight(word: Word, reg: Word, k: int): Word {
    if k == 0 then reg
    else if k == 1 then reg % 0x100_0000 * 0x100 + word % 0x100
    else if k == 2 then reg % 0x1_0000 * 0x1_0000 + word % 0x1_0000
    else reg % 0x100 * 0x100_0000 + word % 0x100_0000
  }

  predicate IsLoad(op: Op) { op.LB? || op.LBU? || op.LH? || op.LHU? || op.LL? || op.LW? || op.LWL? || op.LWR? }

  predicate IsStore(op: Op) { op.SB? || op.SH? || op.SC? || op.SW? || op.SWL? || op.SWR? }

  /** The unaligned accesses work on the aligned word around their address. */
  predicate IsUnaligned(op: Op) { op.LWL? || op.LWR? || op.SWL? || op.SWR? }

  function SizeOf(op: Op): Size {
    if op.LB? || op.LBU? || op.SB? then Byte1 else if op.LH? || op.LHU? || op.SH? then Half2 else Word4
  }

  function AddressOf(op: Op, ea: Word): Word { if IsUnaligned(op) then ea - ea % 4 else ea }

  /** What a load puts into its register, v being what memory delivered and vt its old value. */
  function LoadResult(op: Op, v: Word, vt: Word, ea: Word, faulted: bool): Word {
    if op.LBU? then v % 0x100
    else if op.LHU? then v % 0x1_0000
    else if op.LWL? && !faulted then MergeLeft(v, vt, ea % 4)
    else if op.LWR? && !faulted then MergeRight(v, vt, ea % 4)
    else v
  }

  function Stored(r: Option<Sys>): Outcome {
    match r
    case None => Abort
    case Some(s) => Done(None, None, s)
  }

  function LoadAccess(op: Op, ea: Word, rt: Reg, vt: Word, s: Sys): Outcome {
    match ReadMem(s, AddressOf(op, ea), SizeOf(op))
    case NoRead => Abort
    case Read(v, t) => Done(None, Some(RegWrite(rt, LoadResult(op, v, vt, ea, t.exc))), t)
  }

  /** Read the aligned word at a, replace some of its bytes, and write it back. */
  function StoreUnaligned(op: Op, a: Word, k: int, vt: Word, s: Sys): Option<Sys> {
    match ReadMem(s, a, Word4)
    case NoRead => None
    case Read(v, t) => WriteMem(t, a, Word4, if op.SWL? then StoreLeft(v, vt, k) else StoreRight(v, vt, k))
  }

  // ---------- Computation ----------

  function HiLo(s: Sys): int { s.hi * 0x1_0000_0000 + s.lo }

  function SetHiLo(s: Sys, n: int): Sys { s.(hi := n % 0x1_0000_0000_0000_0000 / 0x1_0000_0000,
      lo := n % 0x1_0000_0000) }

  function TruncDiv(a: int, b: int): int
    requires b != 0
  {
    var q := (if a < 0 then -a else a) / (if b < 0 then -b else b);
    if (a < 0) == (b < 0) then q else -q
  }

  function TruncMod(a: int, b: int): int
    requires b != 0
  { a - TruncDiv(a, b) * b }

  /** DIV and DIVU leave HI and LO alone for a zero divisor and for 0x80000000 / 0xffffffff. */
  predicate Divides(vs: Word, vt: Word) { vt != 0 && !(vs == 0x8000_0000 && vt == 0x1_0000_0000 - 1) }

  /** How many of the n low digits of w, from the top one down, equal b before one differs. */
  function LeadingRun(w: Word, b: bool, n: nat): nat {
    if n == 0 || Bit(w, n - 1) != b then 0 else 1 + LeadingRun(w, b, n - 1)
  }

  lemma {:induction false} LeadingRunBound(w: Word, b: bool, n: nat)
    ensures LeadingRun(w, b, n) <= n
  {
    if n > 0 { LeadingRunBound(w, b, n - 1); }
  }

  function Write(reg: Reg, v: Word, s: Sys): Outcome { Done(Some(RegWrite(reg, v)), None, s) }

  function Quiet(s: Sys): Outcome { Done(None, None, s) }

  /** A sum that must fit: otherwise an overflow exception and no write. */
  function Checked(reg: Reg, sum: int, s: Sys): Outcome {
    if -0x8000_0000 <= sum < 0x8000_0000 then Write(reg, Wrap(sum), s) else Quiet(Raise(s, EXC_OV))
  }

  function JumpTo(s: Sys, target: Word): Sys { s.(pc := Wrap(target - 4)) }

  function Branch(s: Sys, taken: bool, imm: Int16, likely: bool): Sys {
    if taken then JumpTo(s, Wrap(s.pc + Idisp(imm)))
    else if likely then s.(pc := Wrap(s.pc + 4))
    else s
  }

  function JumpAddress(pc: Word, target: Word): Word { OrW(pc - pc % 0x1000_0000, ShiftLeft(target, 2)) }

  function MoveToCp0(s: Sys, reg: Reg, v: Word): Sys {
    var c := s.cp0[reg := v];
    if reg == COMPARE then s.(cp0 := c[CAUSE := AndW(c[CAUSE], 0xffff_7fff)])
    else if reg == STATUS then s.(cp0 := c[STATUS := OrW(AndW(v, 0xf000_ff13), 0x3000_0010)])
    else if reg == CAUSE then s.(cp0 := c[CAUSE := AndW(v, 0x8000_ff7c)])
    else if reg == CONFIG then s.(cp0 := c[CONFIG := AndW(v, 0xf_c380)])
    else s.(cp0 := c)
  }

  // The instructions by what they do.

  predicate IsImmediate(op: Op) { op in {ADDIU, ANDI, ORI, XORI, SLTI, SLTIU, LUI} }

  predicate IsCompute(op: Op) {
    IsImmediate(op) || op in {ADDU, SUBU, AND, OR, XOR, NOR, SLT, SLTU}
  }

  predicate IsSum(op: Op) { op in {ADD, ADDI, SUB} }

  predicate IsShift(op: Op) { op in {SLL, SLLV, SRL, SRLV, SRA, SRAV} }

  predicate IsMove(op: Op) { op in {MOVN, MOVZ, CLO, CLZ, MFHI, MFLO, MTHI, MTLO, MFC0, MTC0} }

  predicate IsMultiply(op: Op) { op in {MULT, MULTU, MUL, MADD, MADDU, MSUB, MSUBU} }

  predicate IsTransfer(op: Op) { op in {J, JAL, JR, JALR, ERET} }

  predicate IsTrap(op: Op) { op in {TEQ, TEQI, TNE, TNEI, TGE, TGEI, TGEU, TGEIU, TLT, TLTI, TLTU, TLTIU} }

  /** Instructions of absent units, and those that the simulator ignores. */
  predicate IsAbsent(op: Op) {
    op in {RFE, TLBP, TLBR, TLBWI, TLBWR, MFC2, MTC2, LDC2, LWC2, SDC2, SWC2, CACHE, PREF, SYNC}
  }

  /** Three-register and immediate computations; v is the second operand. */
  function Compute(op: Op, vs: Word, v: Word): Word
    requires IsCompute(op)
  {
    match op
    case ADDU | ADDIU => Wrap(vs + v)
    case SUBU => Wrap(vs - v)
    case AND | ANDI => AndW(vs, v)
    case OR | ORI => OrW(vs, v)
    case XOR | XORI => XorW(vs, v)
    case NOR => Not(OrW(vs, v))
    case SLT | SLTI => if Signed(vs) < Signed(v) then 1 else 0
    case SLTU | SLTIU => if vs < v then 1 else 0
    case LUI => Wrap(v * 0x1_0000)
  }

  /** An immediate operand: the logical operations and LUI do not extend its sign. */
  function Operand(i: Inst): Word {
    if i.op in {ADDIU, SLTI, SLTIU} then Wrap(i.imm) else Imm16(i)
  }

  function ExecCompute(i: Inst, vs: Word, vt: Word, s: Sys): Outcome
    requires IsCompute(i.op)
  {
    if IsImmediate(i.op) then Write(i.rt, Compute(i.op, vs, Operand(i)), s) else Write(i.rd, Compute(i.op, vs, vt), s)
  }

  function ShiftLeft(v: Word, n: nat): Word { Wrap(v * Pow2(n)) }
  function ShiftRight(v: Word, n: nat): Word { Wrap(v / Pow2(n)) }
  function ShiftArith(v: Word, n: nat): Word { Wrap(Signed(v) / Pow2(n)) }

  function Shifted(i: Inst, vs: Word, vt: Word): Word
    requires IsShift(i.op)
  {
    match i.op
    case SLL => ShiftLeft(vt, i.shamt)
    case SLLV => ShiftLeft(vt, vs % 32)
    case SRL => ShiftRight(vt, i.shamt)
    case SRLV => ShiftRight(vt, vs % 32)
    case SRA => ShiftArith(vt, i.shamt)
    case SRAV => ShiftArith(vt, vs % 32)
  }

  /** ADD, ADDI and SUB, before the check that the result fits. */
  function ExactSum(i: Inst, vs: Word, vt: Word): int {
    if i.op.ADDI? then Signed(vs) + i.imm
    else if i.op.ADD? then Signed(vs) + Signed(vt)
    else Signed(vs) - Signed(vt)
  }

  function ExecSum(i: Inst, vs: Word, vt: Word, s: Sys): Outcome {
    Checked(if i.op.ADDI? then i.rt else i.rd, ExactSum(i, vs, vt), s)
  }

  function Move(i: Inst, vs: Word, vt: Word, s: Sys): Outcome
    requires IsMove(i.op)
  {
    match i.op
    case MOVN => if vt != 0 then Write(i.rd, vs, s) else Quiet(s)
    case MOVZ => if vt == 0 then Write(i.rd, vs, s) else Quiet(s)
    case CLO => LeadingRunBound(vs, true, 32); Write(i.rd, LeadingRun(vs, true, 32), s)
    case CLZ => LeadingRunBound(vs, false, 32); Write(i.rd, LeadingRun(vs, false, 32), s)
    case MFHI => Write(i.rd, s.hi, s)
    case MFLO => Write(i.rd, s.lo, s)
    case MTHI => Quiet(s.(hi := vs))
    case MTLO => Quiet(s.(lo := vs))
    case MFC0 => Write(i.rt, s.cp0[i.rd], s)
    case MTC0 => Quiet(MoveToCp0(s, i.rd, vt))
  }

  function Multiply(op: Op, vs: Word, vt: Word, s: Sys): Sys
    requires IsMultiply(op)
  {
    match op
    case MULT | MUL => SetHiLo(s, Signed(vs) * Signed(vt))
    case MULTU => SetHiLo(s, vs * vt)
    case MADD => SetHiLo(s, HiLo(s) + Signed(vs) * Signed(vt))
    case MADDU => SetHiLo(s, HiLo(s) + vs * vt)
    case MSUB => SetHiLo(s, HiLo(s) - Signed(vs) * Signed(vt))
    case MSUBU => SetHiLo(s, HiLo(s) - vs * vt)
  }

  function Divide(op: Op, vs: Word, vt: Word, s: Sys): Sys {
    if !Divides(vs, vt) then s
    else if op.DIV? then s.(lo := Wrap(TruncDiv(Signed(vs), Signed(vt))), hi := Wrap(TruncMod(Signed(vs), Signed(vt))))
    else s.(lo := vs / vt, hi := vs % vt)
  }

  function ExecMultiply(i: Inst, vs: Word, vt: Word, s: Sys): Outcome
    requires IsMultiply(i.op)
  {
    var t := Multiply(i.op, vs, vt, s);
    if i.op.MUL? then Write(i.rd, t.lo, t) else Quiet(t)
  }

  predicate Taken(op: Op, vs: Word, vt: Word)
    requires IsBranch(op)
  {
    match op
    case BEQ | BEQL => vs == vt
    case BNE | BNEL => vs != vt
    case BGEZ | BGEZL | BGEZAL | BGEZALL => Signed(vs) >= 0
    case BGTZ | BGTZL => Signed(vs) > 0
    case BLEZ | BLEZL => Signed(vs) <= 0
    case BLTZ | BLTZL | BLTZAL | BLTZALL => Signed(vs) < 0
  }

  predicate IsLikely(op: Op) { op in {BEQL, BNEL, BGEZL, BGEZALL, BGTZL, BLEZL, BLTZL, BLTZALL} }

  predicate Links(op: Op) { op in {BGEZAL, BGEZALL, BLTZAL, BLTZALL} }

  /** The link is written before the test, which therefore sees it when rs is 31. */
  function ExecBranch(i: Inst, vs: Word, vt: Word, s: Sys): Outcome
    requires IsBranch(i.op)
  {
    var link := Wrap(s.pc + 4);
    var v := if Links(i.op) && i.rs == 31 then link else vs;
    var t := Branch(s, Taken(i.op, v, vt), i.imm, IsLikely(i.op));
    if Links(i.op) then Write(31, link, t) else Quiet(t)
  }

  function Transfer(i: Inst, vs: Word, s: Sys): Outcome
    requires IsTransfer(i.op)
  {
    match i.op
    case J => Quiet(JumpTo(s, JumpAddress(s.pc, i.target)))
    case JAL => Write(31, Wrap(s.pc + 4), JumpTo(s, JumpAddress(s.pc, i.target)))
    case JR => Quiet(JumpTo(s, vs))
    case JALR => Write(i.rd, Wrap(s.pc + 4), JumpTo(s, vs))
    case ERET =>
      var st := s.cp0[STATUS];
      Quiet(JumpTo(s.(cp0 := s.cp0[STATUS := if Exl(st) then st - 2 else st]), s.cp0[EPC]))
  }

  predicate Traps(i: Inst, vs: Word, vt: Word)
    requires IsTrap(i.op)
  {
    match i.op
    case TEQ => vs == vt
    case TEQI => Signed(vs) == i.imm
    case TNE => vs != vt
    case TNEI => Signed(vs) != i.imm
    case TGE => Signed(vs) >= Signed(vt)
    case TGEI => Signed(vs) >= i.imm
    case TGEU => vs >= vt
    case TGEIU => vs >= Wrap(i.imm)
    case TLT => Signed(vs) < Signed(vt)
    case TLTI => Signed(vs) < i.imm
    case TLTU => vs < vt
    case TLTIU => vs < Wrap(i.imm)
  }

  function ExecTrap(i: Inst, vs: Word, vt: Word, s: Sys): Sys
    requires IsTrap(i.op)
  { if Traps(i, vs, vt) then Raise(s, EXC_TR) else s }

  function ExecAbsent(op: Op, s: Sys): Sys
    requires IsAbsent(op)
  {
    match op
    case CACHE | PREF | SYNC => s
    case RFE | TLBP | TLBR | TLBWI | TLBWR => Raise(s, EXC_RI)
    case MFC2 | MTC2 | LDC2 | LWC2 | SDC2 | SWC2 => Raise(s, EXC_CPU)
  }

  predicate IsRegister(op: Op) {
    IsCompute(op) || IsSum(op) || IsShift(op) || IsMove(op) || IsMultiply(op) || op.DIV? || op.DIVU?
  }

  function ExecRegister(i: Inst, vs: Word, vt: Word, s: Sys): Outcome
    requires IsRegister(i.op)
  {
    if IsCompute(i.op) then ExecCompute(i, vs, vt, s)
    else if IsSum(i.op) then ExecSum(i, vs, vt, s)
    else if IsShift(i.op) then Write(i.rd, Shifted(i, vs, vt), s)
    else if IsMove(i.op) then Move(i, vs, vt, s)
    else if IsMultiply(i.op) then ExecMultiply(i, vs, vt, s)
    else Quiet(Divide(i.op, vs, vt, s))
  }

  function ExecStore(op: Op, ea: Word, vt: Word, s: Sys): Option<Sys> {
    if IsUnaligned(op) then StoreUnaligned(op, ea - ea % 4, ea % 4, vt, s) else WriteMem(s, ea, SizeOf(op), vt)
  }

  function ExecControl(i: Inst, vs: Word, vt: Word, s: Sys): Outcome {
    if IsBranch(i.op) then ExecBranch(i, vs, vt, s)
    else if IsTransfer(i.op) then Transfer(i, vs, s)
    else if IsTrap(i.op) then Quiet(ExecTrap(i, vs, vt, s))
    else if IsAbsent(i.op) then Quiet(ExecAbsent(i.op, s))
    else if i.op.BREAK? then (if i.rd == 1 then Return(Raise(s, EXC_BP)) else Quiet(Raise(s, EXC_BP)))
    else Abort
  }

  /** The effect of instruction i, given the values vs and vt of its source registers. */
  function Exec(i: Inst, vs: Word, vt: Word, s: Sys): Outcome {
    if IsRegister(i.op) then ExecRegister(i, vs, vt, s)
    else if IsLoad(i.op) then LoadAccess(i.op, Wrap(vs + i.imm), i.rt, vt, s)
    else if IsStore(i.op) then Stored(ExecStore(i.op, Wrap(vs + i.imm), vt, s))
    else ExecControl(i, vs, vt, s)
  }

  // ---------- One step ----------

  datatype Fetched = Fetched(slot: Slot, sys: Sys)

  /** The instruction at address a. A bad address raises an exception and yields the decoding
      of zero. */
  function Fetch(s: Sys, a: Word): Fetched {
    if InText(s.mem, a) && a % 4 == 0 then Fetched(s.mem.text[(a - TEXT_BOT) / 4], s)
    else if InKText(s.mem, a) && a % 4 == 0 then Fetched(s.mem.kText[(a - K_TEXT_BOT) / 4], s)
    else Fetched(Slot.Some(Decode(0)), Fault(s, EXC_IBE, a))
  }

  predicate Undefined(i: Inst, syms: map<string, Word>) {
    i.expr.Some? && i.expr.value.symbol.Some? &&
    (var n := i.expr.value.symbol.value; n !in syms || syms[n] == 0)
  }

  function Apply(r: Bank, w: Option<RegWrite>): Bank {
    match w
    case None => r
    case Some(w) => r[w.reg := w.value]
  }

  const SYS_SBRK := 9
  const SYS_EXIT := 10
  const SYS_EXIT2 := 17

  /** An executed instruction: the registers after its write, the load still to be delivered,
      and the rest of the machine, ready for the next instruction. */
  datatype Executed =
    | Failed
    | Exited(r: Bank, sys: Sys)
    | Ran(r: Bank, ld: Option<RegWrite>, sys: Sys)

  /** The system calls with no input or output: sbrk and exit. */
  function Syscall(r: Bank, s: Sys): Executed {
    if r[2] == SYS_SBRK then
      match GrowData(s.mem, Signed(r[4]))
      case None => Failed
      case Some(m) => Ran(r[2 := s.mem.dataTop], None, Finish(s.(mem := m)))
    else if r[2] == SYS_EXIT || r[2] == SYS_EXIT2 then Exited(r, s)
    else Failed
  }

  function Execute(i: Inst, r: Bank, s: Sys): Executed {
    if i.op.SYSCALL? then Syscall(r, s) else Complete(Exec(i, r[i.rs], r[i.rt], s), r)
  }

  function Complete(o: Outcome, r: Bank): Executed {
    match o
    case Abort => Failed
    case Return(t) => Ran(r, None, t)
    case Done(wr, ld, t) => Ran(Apply(r, wr), ld, Finish(t))
  }

  /** The instruction that st is about to execute, if it can be fetched. */
  datatype Issued = Bad | Faulted(st: State) | Ready(i: Inst, r: Bank, sys: Sys)

  function Issue(st: State): Issued {
    var r := st.r[0 := 0];
    var f := Fetch(st.sys, st.sys.pc);
    if f.sys.exc then Faulted(State(r, Handle(f.sys)))
    else if f.slot.None? || Undefined(f.slot.value, st.sys.syms) then Bad
    else Ready(f.slot.value, r, f.sys)
  }

  datatype Result = Aborted | Stopped(st: State) | Next(st: State)

  /** One step of the machine whose loads deliver at once. */
  function Step(st: State): Result {
    match Issue(st)
    case Bad => Aborted
    case Faulted(t) => Next(t)
    case Ready(i, r, s) => Deliver(Execute(i, r, s))
  }

  function Deliver(e: Executed): Result {
    match e
    case Failed => Aborted
    case Exited(r, s) => Stopped(State(r, s))
    case Ran(r, ld, s) => Next(State(Apply(r, ld), s))
  }

  /** The machine whose loads deliver only after the following instruction: `newer` was loaded
      by the last instruction and `older` by the one before it. */
  datatype Delayed = Delayed(st: State, newer: Option<RegWrite>, older: Option<RegWrite>)

  datatype DelayedResult = DAborted | DStopped(d: Delayed) | DNext(d: Delayed)

  function DelayedStep(d: Delayed): DelayedResult {
    match Issue(d.st)
    case Bad => DAborted
    case Faulted(t) => DNext(d.(st := t))
    case Ready(i, r, s) => Postpone(Execute(i, Apply(r, d.older), s), d.newer)
  }

  function Postpone(e: Executed, newer: Option<RegWrite>): DelayedResult {
    match e
    case Failed => DAborted
    case Exited(r, s) => DStopped(Delayed(State(r, s), None, newer))
    case Ran(r, ld, s) => DNext(Delayed(State(r, s), ld, newer))
  }
}
