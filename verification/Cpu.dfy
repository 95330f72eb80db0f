/** The interpreter: registers, coprocessor 0 and segmented memory, updated in place.  Every
    method is proved to do what the reference definition in Isa says, on any state it may meet. */
module Cpu {
  import opened Word
  import opened Instruction
  import opened Codec
  import opened MemoryImage
  import opened Multiplier
  import opened Masks
  import DelayedLoads
  import Division
  import Isa
  type Sys = Isa.Sys
  type Bank = Isa.Bank
  type RegWrite = Isa.RegWrite
  type Size = Isa.Size

  const REG_RES := 2
  const REG_A0 := 4

  datatype Ended = Failed | Exited | Continues

  class Machine {
    // reg_image_t: R, HI, LO, PC, CPR[0] and exception_occurred
    var r: Bank
    var hi: Word
    var lo: Word
    var pc: Word
    var cp0: Bank
    var exc: bool

    const memory: MemImage
    var syms: map<string, Word>

    // The shift register of loads that are not yet delivered.
    const delayedLoads: bool
    var load1: Option<RegWrite>
    var load2: Option<RegWrite>

    ghost predicate Valid()
      reads this, memory
    {
      memory.Valid()
    }

    /** The reference state of this machine, apart from the general registers. */
    ghost function Now(): Sys
      reads this, memory
    {
      Isa.Sys(hi, lo, pc, cp0, exc, memory.model, syms)
    }

    /** The instruction with outcome o has been carried out, `before` being the registers it found. */
    ghost predicate Performed(o: Isa.Outcome, before: Bank)
      reads this, memory
    {
      && o.Done? && Valid() && Now() == o.sys
      && if delayedLoads then r == Isa.Apply(before, o.wr) && load1 == o.ld
         else r == Isa.Apply(Isa.Apply(before, o.wr), o.ld) && load1.None?
    }

    constructor (memory: MemImage, delayedLoads: bool)
      requires memory.Valid()
      ensures Valid() && this.memory == memory && this.delayedLoads == delayedLoads
      ensures Now() == Isa.Sys(0, 0, Isa.TEXT_BOT, seq(32, _ => 0)[Isa.STATUS := 0x3000_ff10], false, memory.model, map[])
      ensures r == seq(32, _ => 0)[29 := 0x7fff_effc] && load1.None? && load2.None?
    {
      r := seq(32, _ => 0)[29 := 0x7fff_effc];
      hi, lo, pc := 0, 0, Isa.TEXT_BOT;
      cp0 := seq(32, _ => 0)[Isa.STATUS := 0x3000_ff10];
      exc := false;
      syms := map[];
      load1, load2 := None, None;
      this.memory := memory;
      this.delayedLoads := delayedLoads;
    }

    // ---------- Exceptions ----------

    method RaiseException(code: Reg)
      requires Valid()
      modifies this`exc, this`cp0
      ensures Valid() && Now() == Isa.Raise(old(Now()), code)
    {
      exc := true;
      ExlMask(cp0[Isa.STATUS]);
      if AndW(cp0[Isa.STATUS], 2) == 0 {
        cp0 := cp0[Isa.EPC := pc - pc % 4];
      }
      CodeMask(cp0[Isa.CAUSE], code);
      cp0 := cp0[Isa.CAUSE := OrW(AndW(cp0[Isa.CAUSE], Not(0x7c)), code * 4)];
      cp0 := cp0[Isa.STATUS := OrW(cp0[Isa.STATUS], 2)];
    }

    method RaiseFault(code: Reg, addr: Word)
      requires Valid()
      modifies this`exc, this`cp0
      ensures Valid() && Now() == Isa.Fault(old(Now()), code, addr)
    {
      RaiseException(code);
      cp0 := cp0[Isa.BAD_VADDR := addr];
    }

    method HandleException()
      requires Valid()
      modifies this`exc, this`pc
      ensures Valid() && Now() == Isa.Handle(old(Now()))
    {
      exc := false;
      pc := Isa.EXCEPTION_ADDR;
    }

    // ---------- Memory ----------

    /** read_mem_byte, read_mem_half and read_mem_word. */
    method ReadMem(addr: Word, z: Size) returns (ok: bool, v: Word)
      requires Valid()
      modifies this`exc, this`cp0, memory
      ensures ok == Isa.ReadMem(old(Now()), addr, z).Read?
      ensures ok ==>
              && v == Isa.ReadMem(old(Now()), addr, z).value && Valid()
              && Now() == Isa.ReadMem(old(Now()), addr, z).sys
    {
      var mapped := memory.IsMapped(addr);
      if mapped && addr % Isa.Bytes(z) == 0 {
        v := memory.Peek(addr, z);
        v := SignedView(v, z);
        return true, v;
      }
      ok, v := BadMemRead(addr, z);
    }

    /** A byte or half goes through a signed type. */
    static method SignedView(w: Word, z: Size) returns (v: Word)
      requires z.Byte1? ==> w < 0x100
      requires z.Half2? ==> w < 0x1_0000
      ensures v == Isa.SignExtend(w, z)
    {
      match z
      case Byte1 =>
        var signed := if w <= 127 then w else w - 256;
        v := Wrap(signed);
      case Half2 =>
        var signed := if w <= 32767 then w else w - 65536;
        v := Wrap(signed);
      case Word4 => v := w;
    }

    method BadMemRead(addr: Word, z: Size) returns (ok: bool, v: Word)
      requires Valid() && !(Isa.Mapped(memory.model, addr) && addr % Isa.Bytes(z) == 0)
      modifies this`exc, this`cp0, memory
      ensures ok == Isa.ReadMem(old(Now()), addr, z).Read?
      ensures ok ==>
              && v == Isa.ReadMem(old(Now()), addr, z).value && Valid()
              && Now() == Isa.ReadMem(old(Now()), addr, z).sys
    {
      ghost var s := Now();
      ghost var res := Isa.ReadMem(s, addr, z);
      if addr % Isa.Bytes(z) != 0 {
        assert res == Isa.Read(0, Isa.Fault(s, Isa.EXC_ADEL, addr));
        RaiseFault(Isa.EXC_ADEL, addr);
      } else if Isa.TEXT_BOT <= addr < Isa.TEXT_BOT + 4 * |memory.textSeg| {
        ok, v := ReadText(addr, z);
        return;
      } else if memory.dataTop < addr < memory.stackBot && addr > Wrap(memory.stackBot - Isa.MAX_GROWTH) {
        ok, v := ReadGrowing(addr, z);
        return;
      } else {
        assert res == Isa.Read(0, Isa.Fault(s, Isa.EXC_DBE, addr));
        RaiseFault(Isa.EXC_DBE, addr);
      }
      return true, 0;
    }

    /** Grow the stack down to addr, and read a zero. */
    method ReadGrowing(addr: Word, z: Size) returns (ok: bool, v: Word)
      requires Valid() && Isa.InGrowthZone(memory.model, addr) && addr % Isa.Bytes(z) == 0
      requires !Isa.Mapped(memory.model, addr) && !Isa.InText(memory.model, addr)
      modifies memory
      ensures ok == Isa.ReadMem(old(Now()), addr, z).Read?
      ensures ok ==>
              && v == Isa.ReadMem(old(Now()), addr, z).value && Valid()
              && Now() == Isa.ReadMem(old(Now()), addr, z).sys
    {
      ok := GrowStack(addr);
      v := 0;
    }

    /** A text slot read as data; reading part of an empty one fails. */
    method ReadText(addr: Word, z: Size) returns (ok: bool, v: Word)
      requires Valid() && Isa.InText(memory.model, addr) && addr % Isa.Bytes(z) == 0 && !Isa.Mapped(memory.model, addr)
      ensures ok == Isa.ReadMem(old(Now()), addr, z).Read?
      ensures ok ==>
              && v == Isa.ReadMem(old(Now()), addr, z).value && Valid()
              && Now() == Isa.ReadMem(old(Now()), addr, z).sys
    {
      var n, k := (addr - Isa.TEXT_BOT) / 4, addr % 4;
      var slot := memory.textSeg[n];
      if slot.None? { return z.Word4?, 0; }
      OffsetAligned(addr, z);
      v := EncodingField(slot.value.encoding, k, z);
      ok := true;
    }

    static method EncodingField(enc: Word, k: nat, z: Size) returns (v: Word)
      requires k < 4 && k % Isa.Bytes(z) == 0
      ensures v == Isa.Field(enc, k, z)
    {
      match z
      case Byte1 =>
        ShiftedByte(enc, k);
        v := AndW(Isa.ShiftRight(enc, 8 * k), 0xff);
      case Half2 =>
        ShiftedHalf(enc, k);
        v := AndW(Isa.ShiftRight(enc, 8 * k), 0xffff);
      case Word4 => v := enc;
    }

    /** set_mem_byte, set_mem_half and set_mem_word. */
    method SetMem(addr: Word, z: Size, v: Word) returns (ok: bool)
      requires Valid()
      modifies this`exc, this`cp0, memory
      ensures ok == Isa.WriteMem(old(Now()), addr, z, v).Some?
      ensures ok ==> Valid() && Now() == Isa.WriteMem(old(Now()), addr, z, v).value
    {
      var mapped := memory.IsMapped(addr);
      if mapped && addr % Isa.Bytes(z) == 0 {
        memory.Poke(addr, z, v);
        return true;
      }
      ok := BadMemWrite(addr, z, v);
    }

    method BadMemWrite(addr: Word, z: Size, v: Word) returns (ok: bool)
      requires Valid() && !(Isa.Mapped(memory.model, addr) && addr % Isa.Bytes(z) == 0)
      modifies this`exc, this`cp0, memory
      ensures ok == Isa.WriteMem(old(Now()), addr, z, v).Some?
      ensures ok ==> Valid() && Now() == Isa.WriteMem(old(Now()), addr, z, v).value
    {
      ghost var s := Now();
      ghost var res := Isa.WriteMem(s, addr, z, v);
      if addr % Isa.Bytes(z) != 0 {
        assert res == Some(Isa.Fault(s, Isa.EXC_ADES, addr));
        RaiseFault(Isa.EXC_ADES, addr);
      } else if Isa.TEXT_BOT <= addr < Isa.TEXT_BOT + 4 * |memory.textSeg| {
        ok := WriteText(addr, z, v);
        return;
      } else if memory.dataTop < addr < memory.stackBot && addr > Wrap(memory.stackBot - Isa.MAX_GROWTH) {
        ok := StoreGrowing(addr, z, v);
        return;
      } else {
        assert res == Some(Isa.Fault(s, Isa.EXC_DBE, addr));
        RaiseFault(Isa.EXC_DBE, addr);
      }
      return true;
    }

    /** Grow the stack down to addr. */
    method GrowStack(addr: Word) returns (ok: bool)
      requires Valid() && Isa.InGrowthZone(memory.model, addr)
      modifies memory
      ensures ok == Isa.GrowStack(old(memory.model), addr).Some?
      ensures ok ==> Valid() && Now() == old(Now()).(mem := Isa.GrowStack(old(memory.model), addr).value)
    {
      ok := memory.ExpandStack(memory.stackBot - addr + 4);
    }

    method StoreGrowing(addr: Word, z: Size, v: Word) returns (ok: bool)
      requires Valid() && Isa.InGrowthZone(memory.model, addr) && addr % Isa.Bytes(z) == 0
      requires !Isa.Mapped(memory.model, addr) && !Isa.InText(memory.model, addr)
      modifies memory
      ensures ok == Isa.WriteMem(old(Now()), addr, z, v).Some?
      ensures ok ==> Valid() && Now() == Isa.WriteMem(old(Now()), addr, z, v).value
    {
      ok := GrowStack(addr);
      if ok {
        memory.Poke(addr, z, v);
      }
    }

    /** A text slot written as data: the changed encoding is decoded again. */
    method WriteText(addr: Word, z: Size, v: Word) returns (ok: bool)
      requires Valid() && Isa.InText(memory.model, addr) && addr % Isa.Bytes(z) == 0 && !Isa.Mapped(memory.model, addr)
      modifies memory
      ensures ok == Isa.WriteMem(old(Now()), addr, z, v).Some?
      ensures ok ==> Valid() && Now() == Isa.WriteMem(old(Now()), addr, z, v).value
    {
      var n := (addr - Isa.TEXT_BOT) / 4;
      var tmp;
      OffsetAligned(addr, z);
      ok, tmp := ChangedEncoding(memory.textSeg[n], addr % 4, z, v);
      if ok {
        memory.SetText(n, Slot.Some(Decode(tmp)));
      }
    }

    static method ChangedEncoding(slot: Slot, k: nat, z: Size, v: Word) returns (ok: bool, tmp: Word)
      requires k < 4 && k % Isa.Bytes(z) == 0
      ensures ok == (slot.Some? || z.Word4?)
      ensures ok ==> tmp == if z.Word4? then v else Isa.SetField(slot.value.encoding, k, z, v)
    {
      if z.Word4? {
        return true, v;
      } else if slot.None? {
        return false, 0;
      } else if z.Byte1? {
        tmp := slot.value.encoding;
        ByteStored(tmp, k, v);
        return true, StoredByte(tmp, k, v);
      } else {
        tmp := slot.value.encoding;
        HalfStored(tmp, k, v);
        return true, StoredHalf(tmp, k, v);
      }
    }

    // ---------- Computation ----------

    method RunCompute(i: Inst)
      requires Valid() && Isa.IsCompute(i.op) && load1.None?
      modifies this`r
      ensures Performed(Isa.ExecCompute(i, old(r)[i.rs], old(r)[i.rt], old(Now())), old(r))
    {
      if Isa.IsImmediate(i.op) {
        var v := ImmediateValue(i, r[i.rs]);
        r := r[i.rt := v];
      } else {
        var v := RegisterValue(i.op, r[i.rs], r[i.rt]);
        r := r[i.rd := v];
      }
    }

    static method ImmediateValue(i: Inst, vs: Word) returns (v: Word)
      requires Isa.IsImmediate(i.op)
      ensures v == Isa.Compute(i.op, vs, Isa.Operand(i))
    {
      match i.op
      case ADDIU => v := Wrap(vs + i.imm);
      case ANDI => v := AndW(vs, Imm16(i));
      case ORI => v := OrW(vs, Imm16(i));
      case XORI => v := XorW(vs, Imm16(i));
      case SLTI =>
        SignedImm(i.imm);
        v := if Signed(vs) < i.imm then 1 else 0;
      case SLTIU => v := if vs < Wrap(i.imm) then 1 else 0;
      case LUI =>
        LuiValue(i.imm);
        v := AndW(Wrap(i.imm * 0x1_0000), 0xffff_0000);
    }

    static method RegisterValue(op: Op, vs: Word, vt: Word) returns (v: Word)
      requires Isa.IsCompute(op) && !Isa.IsImmediate(op)
      ensures v == Isa.Compute(op, vs, vt)
    {
      match op
      case ADDU => v := Wrap(vs + vt);
      case SUBU => v := Wrap(vs - vt);
      case AND => v := AndW(vs, vt);
      case OR => v := OrW(vs, vt);
      case XOR => v := XorW(vs, vt);
      case NOR => v := Not(OrW(vs, vt));
      case SLT => v := if Signed(vs) < Signed(vt) then 1 else 0;
      case SLTU => v := if vs < vt then 1 else 0;
    }

    method RunSum(i: Inst)
      requires Valid() && Isa.IsSum(i.op) && load1.None?
      modifies this`r, this`exc, this`cp0
      ensures Performed(Isa.ExecSum(i, old(r)[i.rs], old(r)[i.rt], old(Now())), old(r))
    {
      var result, overflow := SumOf(i, r[i.rs], r[i.rt]);
      if overflow {
        RaiseException(Isa.EXC_OV);
      } else {
        r := r[if i.op.ADDI? then i.rt else i.rd := result];
      }
    }

    /** ADD, ADDI and SUB: the signs of the operands and of the wrapped result tell an overflow. */
    static method SumOf(i: Inst, vs: Word, vt: Word) returns (result: Word, overflow: bool)
      requires Isa.IsSum(i.op)
      ensures overflow <==> !(-0x8000_0000 <= Isa.ExactSum(i, vs, vt) < 0x8000_0000)
      ensures result == Wrap(Isa.ExactSum(i, vs, vt))
    {
      if i.op.SUB? {
        DifferenceOverflows(vs, vt);
        result := Wrap(vs - vt);
        overflow := Negative(vs) != Negative(vt) && Negative(vs) != Negative(result);
      } else {
        var b: Word := if i.op.ADDI? then Wrap(i.imm) else vt;
        SignedImm(i.imm);
        SumOverflows(vs, b);
        result := Wrap(vs + b);
        overflow := Negative(vs) == Negative(b) && Negative(vs) != Negative(result);
      }
    }

    method RunShift(i: Inst)
      requires Valid() && Isa.IsShift(i.op) && load1.None?
      modifies this`r
      ensures Performed(Isa.Write(i.rd, Isa.Shifted(i, old(r)[i.rs], old(r)[i.rt]), old(Now())), old(r))
    {
      LowFive(r[i.rs]);
      var shamt := if i.op.SLL? || i.op.SRL? || i.op.SRA? then i.shamt else AndW(r[i.rs], 0x1f);
      var v := ShiftedBy(i.op, r[i.rt], shamt);
      r := r[i.rd := v];
    }

    /** `val << shamt` and `val >> shamt`, for an amount within the word. */
    static method ShiftedBy(op: Op, val: Word, shamt: int) returns (v: Word)
      requires Isa.IsShift(op)
      ensures !(0 <= shamt < 32) ==> v == val
      ensures 0 <= shamt < 32 ==>
              v == if op.SLL? || op.SLLV? then Isa.ShiftLeft(val, shamt)
                   else if op.SRL? || op.SRLV? then Isa.ShiftRight(val, shamt)
                   else Isa.ShiftArith(val, shamt)
    {
      if !(0 <= shamt < 32) { return val; }
      match op
      case SLL | SLLV => v := Wrap(val * Pow2(shamt));
      case SRL | SRLV =>
        QuotientBound(val, Pow2(shamt), val / Pow2(shamt));
        v := val / Pow2(shamt);
      case SRA | SRAV => v := Wrap(Signed(val) / Pow2(shamt));
    }

    /** CLO and CLZ: count down from bit 31 to the first digit that is not `digit`. */
    method CountLeading(val: Word, digit: bool) returns (n: Word)
      ensures n == Isa.LeadingRun(val, digit, 32)
    {
      var i := 31;
      while 0 <= i
        invariant -1 <= i <= 31
        invariant Isa.LeadingRun(val, digit, 32) == 31 - i + Isa.LeadingRun(val, digit, i + 1)
      {
        if Bit(val, i) != digit { break; }
        i := i - 1;
      }
      n := 31 - i;
    }

    method RunMove(i: Inst)
      requires Valid() && Isa.IsMove(i.op) && load1.None?
      modifies this`r, this`hi, this`lo, this`cp0
      ensures Performed(Isa.Move(i, old(r)[i.rs], old(r)[i.rt], old(Now())), old(r))
    {
      match i.op
      case MOVN => if r[i.rt] != 0 { r := r[i.rd := r[i.rs]]; }
      case MOVZ => if r[i.rt] == 0 { r := r[i.rd := r[i.rs]]; }
      case CLO =>
        var n := CountLeading(r[i.rs], true);
        r := r[i.rd := n];
      case CLZ =>
        var n := CountLeading(r[i.rs], false);
        r := r[i.rd := n];
      case MFHI =>
        var v: Word := hi;
        r := r[i.rd := v];
      case MFLO =>
        var v: Word := lo;
        r := r[i.rd := v];
      case MTHI => hi := r[i.rs];
      case MTLO => lo := r[i.rs];
      case MFC0 => r := r[i.rt := cp0[i.rd]];
      case MTC0 => MoveToCp0(i.rd, r[i.rt]);
    }

    method MoveToCp0(fs: Reg, v: Word)
      requires Valid()
      modifies this`cp0
      ensures Valid() && Now() == Isa.MoveToCp0(old(Now()), fs, v)
    {
      cp0 := cp0[fs := v];
      if fs == Isa.COMPARE {
        cp0 := cp0[Isa.CAUSE := AndW(cp0[Isa.CAUSE], 0xffff_7fff)];
      } else if fs == Isa.STATUS {
        cp0 := cp0[Isa.STATUS := AndW(cp0[Isa.STATUS], 0xf000_ff13)];
        cp0 := cp0[Isa.STATUS := OrW(cp0[Isa.STATUS], 0x3000_0010)];
      } else if fs == Isa.CAUSE {
        cp0 := cp0[fs := AndW(cp0[fs], 0x8000_ff7c)];
      } else if fs == Isa.CONFIG {
        cp0 := cp0[fs := AndW(cp0[fs], 0xf_c380)];
      }
    }

    // ---------- HI and LO ----------

    method RunMultiply(i: Inst)
      requires Valid() && Isa.IsMultiply(i.op) && load1.None?
      modifies this`r, this`hi, this`lo
      ensures Performed(Isa.ExecMultiply(i, old(r)[i.rs], old(r)[i.rt], old(Now())), old(r))
    {
      MultiplyInto(i.op, r[i.rs], r[i.rt]);
      if i.op.MUL? { r := r[i.rd := lo]; }
    }

    method MultiplyInto(op: Op, vs: Word, vt: Word)
      requires Valid() && Isa.IsMultiply(op)
      modifies this`hi, this`lo
      ensures Valid() && Now() == Isa.Multiply(op, vs, vt, old(Now()))
    {
      match op
      case MULT | MUL => SetProduct(vs, vt, true);
      case MULTU => SetProduct(vs, vt, false);
      case MADD => AddProduct(vs, vt, true);
      case MADDU => AddProduct(vs, vt, false);
      case MSUB => SubtractProduct(vs, vt, true);
      case MSUBU => SubtractProduct(vs, vt, false);
    }

    method Divide(op: Op, vs: Word, vt: Word)
      requires Valid() && (op.DIV? || op.DIVU?)
      modifies this`hi, this`lo
      ensures Valid() && Now() == Isa.Divide(op, vs, vt, old(Now()))
    {
      if vt != 0 && !(vs == 0x8000_0000 && vt == 0xffff_ffff) {
        if op.DIV? {
          var q, m := Division.TruncatedDivision(Signed(vs), Signed(vt));
          lo := Wrap(q);
          hi := Wrap(m);
        } else {
          QuotientBound(vs, vt, vs / vt);
          lo := vs / vt;
          hi := vs % vt;
        }
      }
    }

    static function Product(vs: Word, vt: Word, signed: bool): int {
      if signed then Signed(vs) * Signed(vt) else vs * vt
    }

    /** signed_multiply or unsigned_multiply. */
    static method Multiply(vs: Word, vt: Word, signed: bool) returns (h: Word, l: Word)
      ensures Pair(h, l) == Wrap64(Product(vs, vt, signed))
    {
      if signed {
        h, l := SignedMultiply(vs, vt);
      } else {
        h, l := UnsignedMultiply(vs, vt);
        SmallIsItself(Pair(h, l));
      }
    }

    method SetProduct(vs: Word, vt: Word, signed: bool)
      requires Valid()
      modifies this`hi, this`lo
      ensures Valid() && Now() == Isa.SetHiLo(old(Now()), Product(vs, vt, signed))
    {
      hi, lo := Multiply(vs, vt, signed);
      PairIs(hi, lo, Product(vs, vt, signed));
    }

    method AddProduct(vs: Word, vt: Word, signed: bool)
      requires Valid()
      modifies this`hi, this`lo
      ensures Valid() && Now() == Isa.SetHiLo(old(Now()), Isa.HiLo(old(Now())) + Product(vs, vt, signed))
    {
      ghost var s := Now();
      var h, l := Multiply(vs, vt, signed);
      Wrap64Sum(Pair(hi, lo), Product(vs, vt, signed));
      hi, lo := Accumulate(hi, lo, h, l);
      PairIs(hi, lo, Isa.HiLo(s) + Product(vs, vt, signed));
    }

    method SubtractProduct(vs: Word, vt: Word, signed: bool)
      requires Valid()
      modifies this`hi, this`lo
      ensures Valid() && Now() == Isa.SetHiLo(old(Now()), Isa.HiLo(old(Now())) - Product(vs, vt, signed))
    {
      ghost var s := Now();
      var h, l := Multiply(vs, vt, signed);
      Wrap64Difference(Pair(hi, lo), Product(vs, vt, signed));
      hi, lo := Deduct(hi, lo, h, l);
      PairIs(hi, lo, Isa.HiLo(s) - Product(vs, vt, signed));
    }

    // ---------- Control transfer ----------

    /** -4 since PC is bumped after this instruction. */
    method JumpInst(target: Word)
      modifies this`pc
      ensures pc == Wrap(target - 4)
    {
      pc := Wrap(target - 4);
    }

    method BranchInst(test: bool, target: Word, nullify: bool)
      modifies this`pc
      ensures pc == if test then Wrap(target - 4) else if nullify then Wrap(old(pc) + 4) else old(pc)
    {
      if test {
        JumpInst(target);
      } else if nullify {
        pc := Wrap(pc + 4);
      }
    }

    method RunBranch(i: Inst)
      requires Valid() && IsBranch(i.op) && load1.None?
      modifies this`r, this`pc
      ensures Performed(Isa.ExecBranch(i, old(r)[i.rs], old(r)[i.rt], old(Now())), old(r))
    {
      var target := Wrap(pc + Idisp(i.imm));
      if Isa.Links(i.op) { r := r[31 := Wrap(pc + 4)]; }
      var test := BranchTest(i.op, r[i.rs], r[i.rt]);
      BranchInst(test, target, Isa.IsLikely(i.op));
    }

    static method BranchTest(op: Op, vs: Word, vt: Word) returns (test: bool)
      requires IsBranch(op)
      ensures test == Isa.Taken(op, vs, vt)
    {
      match op
      case BEQ | BEQL => test := vs == vt;
      case BNE | BNEL => test := vs != vt;
      case BGEZ | BGEZL | BGEZAL | BGEZALL => test := !Negative(vs);
      case BGTZ | BGTZL => test := vs != 0 && !Negative(vs);
      case BLEZ | BLEZL => test := vs == 0 || Negative(vs);
      case BLTZ | BLTZL | BLTZAL | BLTZALL => test := Negative(vs);
    }

    method RunTransfer(i: Inst)
      requires Valid() && Isa.IsTransfer(i.op) && load1.None?
      modifies this`r, this`pc, this`cp0
      ensures Performed(Isa.Transfer(i, old(r)[i.rs], old(Now())), old(r))
    {
      match i.op
      case J => JumpInst(JumpTarget(pc, i.target));
      case JAL =>
        r := r[31 := Wrap(pc + 4)];
        JumpInst(JumpTarget(pc, i.target));
      case JR => JumpInst(r[i.rs]);
      case JALR =>
        var tmp := r[i.rs];
        r := r[i.rd := Wrap(pc + 4)];
        JumpInst(tmp);
      case ERET =>
        ExlMask(cp0[Isa.STATUS]);
        cp0 := cp0[Isa.STATUS := AndW(cp0[Isa.STATUS], Not(2))];
        JumpInst(cp0[Isa.EPC]);
    }

    static function JumpTarget(pc: Word, target: Word): (r: Word)
      ensures r == Isa.JumpAddress(pc, target)
    {
      RegionMask(pc);
      OrW(AndW(pc, 0xf000_0000), Isa.ShiftLeft(target, 2))
    }

    // ---------- Traps and absent units ----------

    method RunTrap(i: Inst)
      requires Valid() && Isa.IsTrap(i.op) && load1.None?
      modifies this`exc, this`cp0
      ensures Performed(Isa.Quiet(Isa.ExecTrap(i, r[i.rs], r[i.rt], old(Now()))), r)
    {
      var test := TrapTest(i, r[i.rs], r[i.rt]);
      if test {
        RaiseException(Isa.EXC_TR);
      }
    }

    /** An immediate is compared as the word that its sign extends to. */
    static method TrapTest(i: Inst, vs: Word, vt: Word) returns (test: bool)
      requires Isa.IsTrap(i.op)
      ensures test == Isa.Traps(i, vs, vt)
    {
      var imm := Wrap(i.imm);
      SignedImm(i.imm);
      match i.op
      case TEQ => test := vs == vt;
      case TEQI => test := vs == imm;
      case TNE => test := vs != vt;
      case TNEI => test := vs != imm;
      case TGE => test := Signed(vs) >= Signed(vt);
      case TGEI => test := Signed(vs) >= Signed(imm);
      case TGEU => test := vs >= vt;
      case TGEIU => test := vs >= imm;
      case TLT => test := Signed(vs) < Signed(vt);
      case TLTI => test := Signed(vs) < Signed(imm);
      case TLTU => test := vs < vt;
      case TLTIU => test := vs < imm;
    }

    method RunAbsent(op: Op)
      requires Valid() && Isa.IsAbsent(op) && load1.None?
      modifies this`exc, this`cp0
      ensures Performed(Isa.Quiet(Isa.ExecAbsent(op, old(Now()))), r)
    {
      match op
      case CACHE | PREF | SYNC =>
      case RFE | TLBP | TLBR | TLBWI | TLBWR => RaiseException(Isa.EXC_RI);
      case MFC2 | MTC2 | LDC2 | LWC2 | SDC2 | SWC2 => RaiseException(Isa.EXC_CPU);
    }

    // ---------- Loads and stores ----------

    /** LOAD_INST: deliver now, or put the load at the head of the shift register. */
    method LoadInst(dest: Reg, v: Word)
      modifies this`r, this`load1
      ensures if delayedLoads then r == old(r) && load1 == Some(Isa.RegWrite(dest, v))
              else r == old(r)[dest := v] && load1 == old(load1)
    {
      if delayedLoads {
        load1 := Some(Isa.RegWrite(dest, v));
      } else {
        r := r[dest := v];
      }
    }

    method RunLoad(i: Inst, addr: Word) returns (ok: bool)
      requires Valid() && Isa.IsLoad(i.op) && load1.None?
      modifies this`r, this`load1, this`exc, this`cp0, memory
      ensures ok == Isa.LoadAccess(i.op, addr, i.rt, old(r)[i.rt], old(Now())).Done?
      ensures ok ==> Performed(Isa.LoadAccess(i.op, addr, i.rt, old(r)[i.rt], old(Now())), old(r))
    {
      var v;
      ok, v := ReadMem(Isa.AddressOf(i.op, addr), Isa.SizeOf(i.op));
      if ok {
        v := Delivered(i.op, v, r[i.rt], addr % 4, exc);
        LoadInst(i.rt, v);
      }
    }

    static method Delivered(op: Op, word: Word, regVal: Word, byte: nat, faulted: bool) returns (v: Word)
      requires byte < 4
      ensures forall ea: Word | ea % 4 == byte :: v == Isa.LoadResult(op, word, regVal, ea, faulted)
    {
      if op.LBU? {
        ByteMasks(word);
        v := AndW(word, 0xff);
      } else if op.LHU? {
        ByteMasks(word);
        v := AndW(word, 0xffff);
      } else if op.LWL? && !faulted {
        v := LoadLeft(word, regVal, byte);
      } else if op.LWR? && !faulted {
        v := LoadRight(word, regVal, byte);
      } else {
        v := word;
      }
    }

    /** SWL and SWR read the aligned word, replace some of its bytes and write it back. */
    method StoreUnaligned(op: Op, addr: Word, byte: nat, reg: Word) returns (ok: bool)
      requires Valid() && (op.SWL? || op.SWR?) && byte < 4
      modifies this`exc, this`cp0, memory
      ensures ok == Isa.StoreUnaligned(op, addr, byte, reg, old(Now())).Some?
      ensures ok ==> Valid() && Now() == Isa.StoreUnaligned(op, addr, byte, reg, old(Now())).value
    {
      var data;
      ok, data := ReadMem(addr, Isa.Word4);
      if ok {
        data := if op.SWL? then StoreLeft(data, reg, byte) else StoreRight(data, reg, byte);
        ok := SetMem(addr, Isa.Word4, data);
      }
    }

    // ---------- One instruction ----------

    method RunRegister(i: Inst)
      requires Valid() && Isa.IsRegister(i.op) && load1.None?
      modifies this`r, this`hi, this`lo, this`exc, this`cp0
      ensures Performed(Isa.ExecRegister(i, old(r)[i.rs], old(r)[i.rt], old(Now())), old(r))
    {
      if Isa.IsCompute(i.op) { RunCompute(i); }
      else if Isa.IsSum(i.op) { RunSum(i); }
      else if Isa.IsShift(i.op) { RunShift(i); }
      else if Isa.IsMove(i.op) { RunMove(i); }
      else if Isa.IsMultiply(i.op) { RunMultiply(i); }
      else { Divide(i.op, r[i.rs], r[i.rt]); }
    }

    method RunStore(op: Op, addr: Word, reg: Word) returns (ok: bool)
      requires Valid() && Isa.IsStore(op)
      modifies this`exc, this`cp0, memory
      ensures ok == Isa.ExecStore(op, addr, reg, old(Now())).Some?
      ensures ok ==> Valid() && Now() == Isa.ExecStore(op, addr, reg, old(Now())).value
    {
      if op.SWL? || op.SWR? {
        ok := StoreUnaligned(op, addr - addr % 4, addr % 4, reg);
      } else {
        ok := SetMem(addr, Isa.SizeOf(op), reg);
      }
    }

    method RunControl(i: Inst) returns (ok: bool)
      requires Valid() && load1.None? && !(i.op.BREAK? && i.rd == 1)
      modifies this`r, this`pc, this`exc, this`cp0
      ensures ok == Isa.ExecControl(i, old(r)[i.rs], old(r)[i.rt], old(Now())).Done?
      ensures ok ==> Performed(Isa.ExecControl(i, old(r)[i.rs], old(r)[i.rt], old(Now())), old(r))
    {
      if IsBranch(i.op) { RunBranch(i); }
      else if Isa.IsTransfer(i.op) { RunTransfer(i); }
      else if Isa.IsTrap(i.op) { RunTrap(i); }
      else if Isa.IsAbsent(i.op) { RunAbsent(i.op); }
      else if i.op.BREAK? { RaiseException(Isa.EXC_BP); }
      else { return false; }
      return true;
    }

    /** The switch of run_spim, without SYSCALL and the BREAK that returns at once. */
    method Dispatch(i: Inst) returns (ok: bool)
      requires Valid() && load1.None? && !(i.op.BREAK? && i.rd == 1)
      modifies this`r, this`hi, this`lo, this`pc, this`exc, this`cp0, this`load1, memory
      ensures ok == Isa.Exec(i, old(r)[i.rs], old(r)[i.rt], old(Now())).Done?
      ensures ok ==> Performed(Isa.Exec(i, old(r)[i.rs], old(r)[i.rt], old(Now())), old(r))
    {
      hide Isa.ExecRegister, Isa.LoadAccess, Isa.ExecStore, Isa.ExecControl, Isa.IsRegister, Isa.IsLoad, Isa.IsStore;
      if Isa.IsRegister(i.op) {
        RunRegister(i);
        ok := true;
      } else if Isa.IsLoad(i.op) {
        ok := RunLoad(i, Wrap(r[i.rs] + i.imm));
      } else if Isa.IsStore(i.op) {
        ok := RunStore(i.op, Wrap(r[i.rs] + i.imm), r[i.rt]);
      } else {
        ok := RunControl(i);
      }
    }

    /** After an instruction: advance, and enter the handler if it raised an exception. */
    method FinishInst()
      requires Valid()
      modifies this`pc, this`exc, this`cp0
      ensures Valid() && Now() == Isa.Finish(old(Now()))
    {
      pc := Wrap(pc + 4);
      if exc {
        // The shift is of a signed word, the comparison of an unsigned one.
        if Wrap(Signed(cp0[Isa.CAUSE]) / 4) > Isa.LAST_REAL_EXCEPT {
          cp0 := cp0[Isa.EPC := Wrap(pc - 4)];
        }
        HandleException();
      }
    }

    /** The system calls sbrk and exit. */
    method DoSyscall() returns (ended: Ended)
      requires Valid() && load1.None?
      modifies this`r, this`pc, this`exc, this`cp0, memory
      ensures Did(Isa.Syscall(old(r), old(Now())), ended)
    {
      if r[REG_RES] == Isa.SYS_SBRK {
        var x := memory.dataTop;
        var ok := memory.ExpandData(Signed(r[REG_A0]));
        if !ok { return Failed; }
        r := r[REG_RES := x];
        FinishInst();
        return Continues;
      }
      return if r[REG_RES] == Isa.SYS_EXIT || r[REG_RES] == Isa.SYS_EXIT2 then Exited else Failed;
    }

    /** The instruction has been carried out with effect e. */
    ghost predicate Did(e: Isa.Executed, ended: Ended)
      reads this, memory
    {
      match e
      case Failed => ended.Failed?
      case Exited(r', s) => ended.Exited? && r == r' && Valid() && Now() == s && load1.None?
      case Ran(r', ld, s) =>
        && ended.Continues? && Valid() && Now() == s
        && if delayedLoads then r == r' && load1 == ld else r == Isa.Apply(r', ld) && load1.None?
    }

    method Execute(i: Inst) returns (ended: Ended)
      requires Valid() && load1.None?
      modifies this`r, this`hi, this`lo, this`pc, this`exc, this`cp0, this`load1, memory
      ensures Did(Isa.Execute(i, old(r), old(Now())), ended)
    {
      if i.op.SYSCALL? {
        ended := DoSyscall();
      } else {
        ended := RunInst(i);
      }
    }

    method RunInst(i: Inst) returns (ended: Ended)
      requires Valid() && load1.None?
      modifies this`r, this`hi, this`lo, this`pc, this`exc, this`cp0, this`load1, memory
      ensures Did(Isa.Complete(Isa.Exec(i, old(r)[i.rs], old(r)[i.rt], old(Now())), old(r)), ended)
    {
      ghost var o, before := Isa.Exec(i, r[i.rs], r[i.rt], Now()), r;
      if i.op.BREAK? && i.rd == 1 {
        assert o == Isa.ExecControl(i, r[i.rs], r[i.rt], Now());
        RaiseException(Isa.EXC_BP);
        return Continues;
      }
      var ok := Dispatch(i);
      if !ok { return Failed; }
      Conclude(o, before);
      ended := Continues;
    }

    method Conclude(ghost o: Isa.Outcome, ghost before: Bank)
      requires Valid() && Performed(o, before)
      modifies this`pc, this`exc, this`cp0
      ensures Did(Isa.Complete(o, before), Continues)
    {
      FinishInst();
    }

    method ReadMemInst(addr: Word) returns (slot: Slot)
      requires Valid()
      modifies this`exc, this`cp0
      ensures slot == Isa.Fetch(old(Now()), addr).slot && Valid() && Now() == Isa.Fetch(old(Now()), addr).sys
    {
      hide Isa.Fault, Decode;
      if Isa.TEXT_BOT <= addr < Isa.TEXT_BOT + 4 * |memory.textSeg| && addr % 4 == 0 {
        slot := memory.textSeg[(addr - Isa.TEXT_BOT) / 4];
      } else if Isa.K_TEXT_BOT <= addr < Isa.K_TEXT_BOT + 4 * |memory.kTextSeg| && addr % 4 == 0 {
        slot := memory.kTextSeg[(addr - Isa.K_TEXT_BOT) / 4];
      } else {
        RaiseFault(Isa.EXC_IBE, addr);
        slot := Slot.Some(Decode(0));
      }
    }

    method DoDelayedUpdate()
      modifies this`r, this`load1, this`load2
      ensures if delayedLoads then r == Isa.Apply(old(r), old(load2)) && load2 == old(load1) && load1.None?
              else r == old(r) && load1 == old(load1) && load2 == old(load2)
    {
      if delayedLoads {
        if load2.Some? { r := r[load2.value.reg := load2.value.value]; }
        load2 := load1;
        load1 := None;
      }
    }

    ghost function Here(): Isa.Delayed
      reads this, memory
    { Isa.Delayed(Isa.State(r, Now()), load1, load2) }

    /** The step with result res has been taken. */
    ghost predicate Took(res: Isa.DelayedResult, ended: Ended)
      reads this, memory
    {
      match res
      case DAborted => ended.Failed?
      case DStopped(d) => ended.Exited? && Valid() && Here() == d
      case DNext(d) => ended.Continues? && Valid() && Here() == d
    }

    /** Fetch the next instruction: None if there is none to execute, or it is not `ok`. */
    method Issue() returns (ok: bool, inst: Slot)
      requires Valid()
      modifies this`r, this`pc, this`exc, this`cp0
      ensures match Isa.Issue(old(Isa.State(r, Now())))
              case Bad => !ok
              case Faulted(t) => ok && inst.None? && Valid() && t == Isa.State(r, Now())
              case Ready(i, r', s) => ok && inst == Slot.Some(i) && Valid() && r == r' && Now() == s
    {
      r := r[0 := 0];
      inst := ReadMemInst(pc);
      if exc {
        HandleException();
        return true, None;
      }
      ok := inst.Some? && !Isa.Undefined(inst.value, syms);
    }

    ghost function After(e: Isa.Executed, d: Isa.Delayed): Isa.DelayedResult {
      if delayedLoads then Isa.Postpone(e, d.newer) else WithLoads(Isa.Deliver(e), d)
    }

    lemma DidTook(e: Isa.Executed, d: Isa.Delayed, ended: Ended)
      requires Did(e, ended)
      requires load2 == if delayedLoads then d.newer else d.older
      requires !delayedLoads ==> d.newer.None?
      ensures Took(After(e, d), ended)
    {
    }

    /** Deliver a pending load, and execute. */
    method Proceed(i: Inst, ghost d: Isa.Delayed) returns (ended: Ended)
      requires Valid() && load1 == d.newer && load2 == d.older
      requires !delayedLoads ==> load1.None? && load2.None?
      modifies this`r, this`hi, this`lo, this`pc, this`exc, this`cp0, this`load1, this`load2, memory
      ensures Took(After(Isa.Execute(i, Due(old(r), d), old(Now())), d), ended)
    {
      DoDelayedUpdate();
      ghost var e := Isa.Execute(i, r, Now());
      ended := Execute(i);
      DidTook(e, d, ended);
    }

    ghost function Due(r: Bank, d: Isa.Delayed): Bank { if delayedLoads then Isa.Apply(r, d.older) else r }

    lemma ReadyStep(d: Isa.Delayed, i: Inst, r: Bank, s: Sys, e: Isa.Executed)
      requires Isa.Issue(d.st) == Isa.Ready(i, r, s) && e == Isa.Execute(i, Due(r, d), s)
      ensures StepOf(d) == After(e, d)
    {
    }

    lemma NoStep(d: Isa.Delayed)
      ensures Isa.Issue(d.st).Bad? ==> StepOf(d) == Isa.DAborted
      ensures Isa.Issue(d.st).Faulted? ==> StepOf(d) == Isa.DNext(d.(st := Isa.Issue(d.st).st))
    {
    }

    /** One instruction. */
    method RunSpim() returns (ended: Ended)
      requires Valid()
      requires !delayedLoads ==> load1.None? && load2.None?
      modifies this`r, this`hi, this`lo, this`pc, this`exc, this`cp0, this`load1, this`load2, memory
      ensures Took(StepOf(old(Here())), ended)
    {
      ghost var d := Here();
      NoStep(d);
      var ok, inst := Issue();
      if !ok { return Failed; }
      if inst.None? { return Continues; }
      ReadyStep(d, inst.value, r, Now(), Isa.Execute(inst.value, Due(r, d), Now()));
      ended := Proceed(inst.value, d);
    }

    ghost function StepOf(d: Isa.Delayed): Isa.DelayedResult {
      if delayedLoads then Isa.DelayedStep(d) else WithLoads(Isa.Step(d.st), d)
    }

    static ghost function WithLoads(res: Isa.Result, d: Isa.Delayed): Isa.DelayedResult {
      match res
      case Aborted => Isa.DAborted
      case Stopped(st) => Isa.DStopped(d.(st := st))
      case Next(st) => Isa.DNext(d.(st := st))
    }

    // ---------- Runs ----------

    /** What n steps of the reference machine come to. */
    ghost function RunOf(d: Isa.Delayed, n: nat): Isa.DelayedResult {
      if delayedLoads then DelayedLoads.RunLate(d, n) else WithLoads(DelayedLoads.RunNow(d.st, n), d)
    }

    lemma RunUnfolds(d: Isa.Delayed, n: nat)
      requires n > 0
      ensures RunOf(d, n) == if StepOf(d).DNext? then RunOf(StepOf(d).d, n - 1) else StepOf(d)
    {
      hide Isa.Step, Isa.DelayedStep;
      if !delayedLoads { NowUnfolds(d, n); }
    }

    static lemma NowUnfolds(d: Isa.Delayed, n: nat)
      requires n > 0
      ensures WithLoads(DelayedLoads.RunNow(d.st, n), d) ==
              match Isa.Step(d.st)
              case Aborted => Isa.DAborted
              case Stopped(st) => Isa.DStopped(d.(st := st))
              case Next(st) => WithLoads(DelayedLoads.RunNow(st, n - 1), d.(st := st))
    {
      hide Isa.Step;
    }

    lemma LoadsStayOff(d: Isa.Delayed)
      requires !delayedLoads && StepOf(d).DNext?
      ensures StepOf(d).d.newer == d.newer && StepOf(d).d.older == d.older
    {
      hide Isa.Step;
    }

    /** At most `steps` instructions. */
    method RunProgram(steps: nat) returns (ended: Ended)
      requires Valid()
      requires !delayedLoads ==> load1.None? && load2.None?
      modifies this`r, this`hi, this`lo, this`pc, this`exc, this`cp0, this`load1, this`load2, memory
      ensures Took(RunOf(old(Here()), steps), ended)
    {
      hide RunOf, StepOf;
      ghost var whole := RunOf(Here(), steps);
      ended := Continues;
      var n := steps;
      while n > 0
        invariant ended.Continues? && Valid() && RunOf(Here(), n) == whole
        invariant !delayedLoads ==> load1.None? && load2.None?
      {
        ghost var d := Here();
        RunUnfolds(d, n);
        ended := RunSpim();
        if !ended.Continues? { return; }
        if !delayedLoads { LoadsStayOff(d); }
        n := n - 1;
      }
      RunEnds(Here());
    }

    lemma RunEnds(d: Isa.Delayed)
      ensures RunOf(d, 0) == Isa.DNext(d)
    {
    }
  }
}
