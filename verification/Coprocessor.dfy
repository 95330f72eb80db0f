/** Coprocessor 0: which digits a move to one of its registers keeps, and which exception each fault
    records. */
module Coprocessor {
  import opened Word
  import opened Instruction
  import opened Isa
  import opened Masks
  import opened Shifts
  import opened HiLo

  // ---------- The digits of the masks ----------

  lemma {:induction false} OnesBits(n: nat, i: nat)
    ensures Bit(Pow2(n) - 1, i) == (i < n)
    decreases n
  {
    if n == 0 { NoBits(i); } else if i > 0 { OnesBits(n - 1, i - 1); }
  }

  /** A field of n ones at digit k, above a number that fits below it. */
  lemma FieldBits(n: nat, k: nat, lo: nat, x: nat, i: nat)
    requires lo < Pow2(k) && x == (Pow2(n) - 1) * Pow2(k) + lo
    ensures Bit(x, i) == if i < k then Bit(lo, i) else i < k + n
  {
    hide Bit, Pow2;
    HighBits(Pow2(n) - 1, lo, k, i);
    if i >= k { OnesBits(n, i - k); }
  }

  lemma SmallPowers()
    ensures Pow2(0) == 1 && Pow2(1) == 2 && Pow2(2) == 4 && Pow2(3) == 8 && Pow2(4) == 16 && Pow2(5) == 32
    ensures Pow2(6) == 64 && Pow2(7) == 128 && Pow2(8) == 256 && Pow2(14) == 0x4000 && Pow2(15) == 0x8000
    ensures Pow2(16) == 0x1_0000 && Pow2(28) == 0x1000_0000 && Pow2(31) == 0x8000_0000
  {
    PowersOfTwo();
    assert Pow2(3) == 8 && Pow2(7) == 128;
    assert Pow2(12) == 0x1000;
    assert Pow2(14) == 0x4000;
    assert Pow2(28) == 0x1000_0000;
  }

  /** What MTC0 lets through to the status register, besides the digits that it sets. */
  predicate StatusDigit(i: nat) { i == 0 || i == 1 || i == 4 || 8 <= i < 16 || 28 <= i < 32 }

  predicate StatusSet(i: nat) { i == 4 || i == 28 || i == 29 }

  /** To the cause register: the code, the pending interrupts and the branch-delay bit. */
  predicate CauseDigit(i: nat) { 2 <= i < 7 || 8 <= i < 16 || i == 31 }

  predicate ConfigDigit(i: nat) { 7 <= i < 10 || 14 <= i < 20 }

  lemma StatusMask(i: nat)
    ensures Bit(0xf000_ff13, i) == StatusDigit(i) && Bit(0x3000_0010, i) == StatusSet(i)
  {
    SmallPowers();
    FieldBits(4, 28, 0xff13, 0xf000_ff13, i);
    FieldBits(8, 8, 0x13, 0xff13, i);
    FieldBits(1, 4, 3, 0x13, i);
    OnesBits(2, i);
    FieldBits(2, 28, 0x10, 0x3000_0010, i);
    FieldBits(1, 4, 0, 0x10, i);
    NoBits(i);
  }

  lemma CauseMask(i: nat)
    ensures Bit(0x8000_ff7c, i) == CauseDigit(i)
  {
    SmallPowers();
    FieldBits(1, 31, 0xff7c, 0x8000_ff7c, i);
    FieldBits(8, 8, 0x7c, 0xff7c, i);
    FieldBits(5, 2, 0, 0x7c, i);
    NoBits(i);
  }

  lemma ConfigMask(i: nat)
    ensures Bit(0xf_c380, i) == ConfigDigit(i)
  {
    SmallPowers();
    FieldBits(6, 14, 0x380, 0xf_c380, i);
    FieldBits(3, 7, 0, 0x380, i);
    NoBits(i);
  }

  lemma CompareMask(i: nat)
    ensures Bit(0xffff_7fff, i) == (i < 32 && i != 15)
  {
    SmallPowers();
    FieldBits(16, 16, 0x7fff, 0xffff_7fff, i);
    OnesBits(15, i);
  }

  // ---------- Moves ----------

  ghost predicate StatusWritten(x: Word, v: Word) {
    forall i: nat | i < 32 :: Bit(x, i) == ((StatusDigit(i) && Bit(v, i)) || StatusSet(i))
  }

  ghost predicate CauseWritten(x: Word, v: Word) {
    forall i: nat | i < 32 :: Bit(x, i) == (CauseDigit(i) && Bit(v, i))
  }

  ghost predicate ConfigWritten(x: Word, v: Word) {
    forall i: nat | i < 32 :: Bit(x, i) == (ConfigDigit(i) && Bit(v, i))
  }

  /** Writing COMPARE clears hardware interrupt 5. */
  ghost predicate TimerCleared(x: Word, cause: Word) {
    forall i: nat | i < 32 :: Bit(x, i) == (i != 15 && Bit(cause, i))
  }

  lemma AndDigits(v: Word, m: Word, i: nat)
    requires i < 32
    ensures Bit(AndW(v, m), i) == (Bit(v, i) && Bit(m, i))
  {
    hide Bit;
    AndDefined(v, m);
    assert IsAnd(v, m, AndW(v, m));
  }

  lemma OrDigits(v: Word, m: Word, i: nat)
    requires i < 32
    ensures Bit(OrW(v, m), i) == (Bit(v, i) || Bit(m, i))
  {
    hide Bit;
    OrDefined(v, m);
    assert IsOr(v, m, OrW(v, m));
  }

  lemma MasksLetThrough(v: Word)
    ensures StatusWritten(OrW(AndW(v, 0xf000_ff13), 0x3000_0010), v) && CauseWritten(AndW(v, 0x8000_ff7c), v)
    ensures ConfigWritten(AndW(v, 0xf_c380), v) && TimerCleared(AndW(v, 0xffff_7fff), v)
  {
    hide Bit, StatusDigit, StatusSet, CauseDigit, ConfigDigit;
    forall i: nat | i < 32
      ensures Bit(OrW(AndW(v, 0xf000_ff13), 0x3000_0010), i) == ((StatusDigit(i) && Bit(v, i)) || StatusSet(i))
    {
      StatusMask(i);
      AndDigits(v, 0xf000_ff13, i);
      OrDigits(AndW(v, 0xf000_ff13), 0x3000_0010, i);
    }
    forall i: nat | i < 32 ensures Bit(AndW(v, 0x8000_ff7c), i) == (CauseDigit(i) && Bit(v, i)) {
      CauseMask(i);
      AndDigits(v, 0x8000_ff7c, i);
    }
    forall i: nat | i < 32 ensures Bit(AndW(v, 0xf_c380), i) == (ConfigDigit(i) && Bit(v, i)) {
      ConfigMask(i);
      AndDigits(v, 0xf_c380, i);
    }
    forall i: nat | i < 32 ensures Bit(AndW(v, 0xffff_7fff), i) == (i != 15 && Bit(v, i)) {
      CompareMask(i);
      AndDigits(v, 0xffff_7fff, i);
    }
  }

  // ---------- Moves ----------

  /** MTC0 changes its register, of which some have digits that cannot be written or are always set;
      COMPARE also clears a digit of the cause. MFC0 then reads what is there. */
  lemma MovesToCp0(i: Inst, j: Inst, vs: Word, v: Word, s: Sys) returns (t: Sys)
    requires i.op.MTC0? && j.op.MFC0? && i.rd == j.rd
    ensures Exec(i, vs, v, s) == Quiet(t) && Exec(j, vs, v, t) == Done(Some(RegWrite(j.rt, t.cp0[i.rd])), None, t)
    ensures t == s.(cp0 := t.cp0)
    ensures i.rd !in {11, 12, 13, 16} ==> t.cp0 == s.cp0[i.rd := v]
    ensures i.rd == 11 ==> t.cp0 == s.cp0[11 := v][13 := t.cp0[13]] && TimerCleared(t.cp0[13], s.cp0[13])
    ensures i.rd == 12 ==> t.cp0 == s.cp0[12 := t.cp0[12]] && StatusWritten(t.cp0[12], v)
    ensures i.rd == 13 ==> t.cp0 == s.cp0[13 := t.cp0[13]] && CauseWritten(t.cp0[13], v)
    ensures i.rd == 16 ==> t.cp0 == s.cp0[16 := t.cp0[16]] && ConfigWritten(t.cp0[16], v)
  {
    hide Exec, Bit, TimerCleared, StatusWritten, CauseWritten, ConfigWritten;
    ExecMoves(i, vs, v, s);
    t := MoveToCp0(s, i.rd, v);
    ExecMoves(j, vs, v, t);
    MasksLetThrough(v);
    MasksLetThrough(s.cp0[13]);
  }

  // ---------- Exceptions ----------

  /** The exception with this number is pending, and its code is in the cause word. */
  predicate Pends(s: Sys, number: int) { s.exc && s.cp0[13] / 4 % 32 == number }

  lemma RaisePends(s: Sys, code: Reg)
    ensures Pends(Raise(s, code), code)
  {
    var c := s.cp0[13];
    CauseDigits(c, c / 4 % 32, c / 0x80, code);
  }

  lemma CauseDigits(c: Word, old': int, high: int, code: Reg)
    requires old' == c / 4 % 32 && high == c / 0x80
    ensures (c - old' * 4 + code * 4) / 4 % 32 == code
  {
    var q := c / 4;
    assert q == high * 32 + old';
    ModUnique(c - old' * 4 + code * 4, 4, high * 32 + code, c % 4);
    ModUnique(high * 32 + code, 32, high, code);
  }

  /** Reads, writes and fetches at bad addresses record which it was, and the address. */
  lemma FaultNumbers(s: Sys, a: Word, z: Size, v: Word)
    requires !s.exc
    ensures a % Bytes(z) != 0 ==> ReadMem(s, a, z).Read? && Pends(ReadMem(s, a, z).sys, 4)
    ensures a % Bytes(z) != 0 ==> WriteMem(s, a, z, v).Some? && Pends(WriteMem(s, a, z, v).value, 5)
    ensures a % 4 != 0 ==> Pends(Fetch(s, a).sys, 6)
    ensures ReadMem(s, a, z).Read? && ReadMem(s, a, z).sys.exc ==> ReadMem(s, a, z).sys.cp0[8] == a
    ensures ReadMem(s, a, z).Read? && a % Bytes(z) == 0 && ReadMem(s, a, z).sys.exc ==> Pends(ReadMem(s, a, z).sys, 7)
    ensures WriteMem(s, a, z, v).Some? && WriteMem(s, a, z, v).value.exc ==> WriteMem(s, a, z, v).value.cp0[8] == a
    ensures WriteMem(s, a, z, v).Some? && a % Bytes(z) == 0 && WriteMem(s, a, z, v).value.exc ==>
              Pends(WriteMem(s, a, z, v).value, 7)
    ensures Fetch(s, a).sys.exc ==> Pends(Fetch(s, a).sys, 6) && Fetch(s, a).sys.cp0[8] == a
  {
    hide Raise, Pends, Mapped, InText, InKText, InGrowthZone, GrowStack, LoadBytes, StoreBytes, SignExtend, SetField,
      Bytes, Isa.Field;
    FaultPends(s, EXC_ADEL, a);
    FaultPends(s, EXC_ADES, a);
    FaultPends(s, EXC_IBE, a);
    FaultPends(s, EXC_DBE, a);
  }

  lemma FaultPends(s: Sys, code: Reg, a: Word)
    ensures Pends(Fault(s, code, a), code) && Fault(s, code, a).cp0[8] == a
  {
    RaisePends(s, code);
  }

  /** The other exceptions that instructions raise: breakpoints, instructions of the absent translation
      buffer, and those of the absent coprocessor. */
  lemma InstructionNumbers(i: Inst, vs: Word, vt: Word, s: Sys)
    requires i.op in {BREAK, RFE, TLBP, TLBR, TLBWI, TLBWR, MFC2, MTC2, LDC2, LWC2, SDC2, SWC2}
    ensures var o := Exec(i, vs, vt, s);
            && (if i.op.BREAK? && i.rd == 1 then o.Return? else o.Done? && o.wr.None? && o.ld.None?)
            && Pends(o.sys, if i.op.BREAK? then 9 else if i.op in {RFE, TLBP, TLBR, TLBWI, TLBWR} then 10 else 11)
  {
    hide Raise, Pends, IsRegister, IsLoad, IsStore, IsBranch, IsTransfer, IsTrap;
    NoOtherKind(i.op);
    RaisePends(s, 9);
    RaisePends(s, 10);
    RaisePends(s, 11);
  }

  predicate Others(op: Op) {
    op in {BREAK, RFE, TLBP, TLBR, TLBWI, TLBWR, MFC2, MTC2, LDC2, LWC2, SDC2, SWC2, CACHE, PREF, SYNC}
  }

  lemma NoOtherKind(op: Op)
    requires Others(op)
    ensures !IsRegister(op) && !IsLoad(op) && !IsStore(op) && !IsBranch(op) && !IsTransfer(op) && !IsTrap(op)
  {
    hide Others, IsRegister, IsBranch, IsTransfer, IsTrap;
    NoComputation(op);
    NoTransfer(op);
  }

  lemma NoComputation(op: Op)
    requires Others(op)
    ensures !IsRegister(op) && !IsLoad(op) && !IsStore(op)
  {
  }

  lemma NoTransfer(op: Op)
    requires Others(op)
    ensures !IsBranch(op) && !IsTransfer(op) && !IsTrap(op)
  {
  }

  /** Cache instructions do nothing. */
  lemma CachesIgnored(i: Inst, vs: Word, vt: Word, s: Sys)
    requires i.op in {CACHE, PREF, SYNC}
    ensures Exec(i, vs, vt, s) == Quiet(s)
  {
    hide IsRegister, IsLoad, IsStore, IsBranch, IsTransfer, IsTrap;
    NoOtherKind(i.op);
  }
}
