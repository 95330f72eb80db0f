/** What the computing instructions compute, in integers and in digits: sums modulo 2^32, the order of
    signed and unsigned numbers, and one digit of a word at a time. */
module Arithmetic {
  import opened Word
  import opened Instruction
  import opened Isa
  import opened Shifts
  import Codec

  // ---------- The meaning of an operation on two words ----------

  /** r is what op makes of a and b. A shift moves b by a digits. */
  ghost predicate Means(op: Op, a: Word, b: Word, r: Word) {
    if op.ADD? || op.ADDI? then Signed(r) == Signed(a) + Signed(b)
    else if op.SUB? then Signed(r) == Signed(a) - Signed(b)
    else if op.ADDU? || op.ADDIU? then (a + b - r) % 0x1_0000_0000 == 0
    else if op.SUBU? then (a - b - r) % 0x1_0000_0000 == 0
    else if op.SLT? || op.SLTI? then r == if Signed(a) < Signed(b) then 1 else 0
    else if op.SLTU? || op.SLTIU? then r == if a < b then 1 else 0
    else MeansDigits(op, a, b, r)
  }

  ghost predicate MeansDigits(op: Op, a: Word, b: Word, r: Word) {
    forall i: nat | i < 32 :: Bit(r, i) == DigitOf(op, a, b, i)
  }

  /** Digit i of the result. */
  predicate DigitOf(op: Op, a: Word, b: Word, i: nat) {
    if op.AND? || op.ANDI? then Bit(a, i) && Bit(b, i)
    else if op.OR? || op.ORI? then Bit(a, i) || Bit(b, i)
    else if op.XOR? || op.XORI? then Bit(a, i) != Bit(b, i)
    else if op.NOR? then !Bit(a, i) && !Bit(b, i)
    else if op.LUI? then i >= 16 && Bit(b, i - 16)
    else if op.SLL? || op.SLLV? then i >= a && Bit(b, i - a)
    else if op.SRL? || op.SRLV? then i + a < 32 && Bit(b, i + a)
    else (op.SRA? || op.SRAV?) && Bit(b, if i + a < 32 then i + a else 31)
  }

  /** Operations told apart by the facts that define them. */
  predicate ByNumbers(op: Op) {
    op in {ADD, ADDI, SUB, ADDU, ADDIU, SUBU, SLT, SLTI, SLTU, SLTIU}
  }

  predicate ByDigits(op: Op) {
    op in {AND, ANDI, OR, ORI, XOR, XORI, NOR, LUI, SLL, SLLV, SRL, SRLV, SRA, SRAV}
  }

  lemma SameModulo(x: int, r: Word, s: Word)
    requires (x - r) % 0x1_0000_0000 == 0 && (x - s) % 0x1_0000_0000 == 0
    ensures r == s
  {
    var p, q := (x - r) / 0x1_0000_0000, (x - s) / 0x1_0000_0000;
    assert s - r == (p - q) * 0x1_0000_0000;
  }

  lemma SignedApart(r: Word, s: Word)
    requires Signed(r) == Signed(s)
    ensures r == s
  {
  }

  /** The facts leave one result. */
  lemma OneMeaning(op: Op, a: Word, b: Word, r: Word, s: Word)
    requires Means(op, a, b, r) && Means(op, a, b, s)
    ensures r == s
  {
    hide MeansDigits, Signed;
    if op.ADD? || op.ADDI? || op.SUB? { SignedApart(r, s); }
    else if op.ADDU? || op.ADDIU? { SameModulo(a + b, r, s); }
    else if op.SUBU? { SameModulo(a - b, r, s); }
    else if !(op.SLT? || op.SLTI? || op.SLTU? || op.SLTIU?) { SameDigits(op, a, b, r, s); }
  }

  lemma SameDigits(op: Op, a: Word, b: Word, r: Word, s: Word)
    requires MeansDigits(op, a, b, r) && MeansDigits(op, a, b, s)
    ensures r == s
  {
    hide DigitOf;
    PowersOfTwo();
    forall i: nat | i < 32 ensures Bit(r, i) == Bit(s, i) {
      assert Bit(r, i) == DigitOf(op, a, b, i);
    }
    SameBits(r, s, 32);
  }

  // ---------- The reference has that meaning ----------

  lemma WrapIsModulo(x: int)
    ensures (x - Wrap(x)) % 0x1_0000_0000 == 0
  {
    WrapParts(x);
    ModUnique(x - Wrap(x), 0x1_0000_0000, x / 0x1_0000_0000, 0);
  }

  lemma WrapIsSigned(x: int)
    requires -0x8000_0000 <= x < 0x8000_0000
    ensures Signed(Wrap(x)) == x
  {
  }

  lemma {:induction false} NotBits(w: nat, n: nat, i: nat)
    requires w < Pow2(n) && i < n
    ensures Bit(Pow2(n) - 1 - w, i) == !Bit(w, i)
    decreases n
  {
    var c := Pow2(n) - 1 - w;
    assert c / 2 == Pow2(n - 1) - 1 - w / 2 && c % 2 == 1 - w % 2;
    if i > 0 { NotBits(w / 2, n - 1, i - 1); }
  }

  lemma LogicDigits(op: Op, a: Word, b: Word, i: nat)
    requires IsCompute(op) && ByDigits(op) && !op.LUI? && i < 32
    ensures Bit(Compute(op, a, b), i) == DigitOf(op, a, b, i)
  {
    hide Bit, Wrap;
    PowersOfTwo();
    AndDefined(a, b);
    OrDefined(a, b);
    XorDefined(a, b);
    assert IsAnd(a, b, AndW(a, b)) && IsOr(a, b, OrW(a, b)) && IsXor(a, b, XorW(a, b));
    NotBits(OrW(a, b), 32, i);
  }

  lemma LuiDigits(b: Word, i: nat)
    requires b < 0x1_0000 && i < 32
    ensures Bit(Wrap(b * 0x1_0000), i) == (i >= 16 && Bit(b, i - 16))
  {
    PowersOfTwo();
    MulBits(b, 16, i);
  }

  lemma ComputeMeans(op: Op, a: Word, b: Word)
    requires IsCompute(op) && (op.LUI? ==> b < 0x1_0000)
    ensures Means(op, a, b, Compute(op, a, b))
  {
    hide Bit, Compute, Means, IsCompute;
    if op.LUI? { LuiMeans(a, b); } else { OthersMean(op, a, b); }
  }

  lemma LuiMeans(a: Word, b: Word)
    requires b < 0x1_0000
    ensures Means(LUI, a, b, Compute(LUI, a, b))
  {
    hide Bit;
    forall i: nat | i < 32 { LuiDigits(b, i); }
  }

  lemma OthersMean(op: Op, a: Word, b: Word)
    requires IsCompute(op) && !op.LUI?
    ensures Means(op, a, b, Compute(op, a, b))
  {
    hide Bit, MeansDigits, Compute;
    if ByDigits(op) { DigitsMean(op, a, b); } else { NumbersMean(op, a, b); }
  }

  lemma NumbersMean(op: Op, a: Word, b: Word)
    requires IsCompute(op) && !ByDigits(op)
    ensures Means(op, a, b, Compute(op, a, b))
  {
    hide ByDigits, IsCompute, MeansDigits, Wrap, AndW, OrW, XorW, Signed;
    NumbersLeft(op);
    WrapIsModulo(a + b);
    WrapIsModulo(a - b);
  }

  lemma NumbersLeft(op: Op)
    requires IsCompute(op) && !ByDigits(op)
    ensures op in {ADDU, ADDIU, SUBU, SLT, SLTI, SLTU, SLTIU}
  {
  }

  lemma DigitsMean(op: Op, a: Word, b: Word)
    requires IsCompute(op) && ByDigits(op) && !op.LUI?
    ensures MeansDigits(op, a, b, Compute(op, a, b)) && !ByNumbers(op)
  {
    hide DigitOf, Compute;
    forall i: nat | i < 32 ensures Bit(Compute(op, a, b), i) == DigitOf(op, a, b, i) { LogicDigits(op, a, b, i); }
  }

  /** By how many digits a shift moves. */
  function Amount(i: Inst, vs: Word): Word { if i.op in {SLL, SRL, SRA} then i.shamt else vs % 32 }

  lemma ShiftDigits(i: Inst, vs: Word, vt: Word, k: nat)
    requires IsShift(i.op) && k < 32
    ensures Bit(Shifted(i, vs, vt), k) == DigitOf(i.op, Amount(i, vs), vt, k)
  {
    hide Bit, ShiftLeft, ShiftRight, ShiftArith;
    var n := Amount(i, vs);
    ShiftLeftBits(vt, n, k);
    ShiftRightBits(vt, n, k);
    ShiftArithBits(vt, n, k);
  }

  lemma ShiftMeans(i: Inst, vs: Word, vt: Word)
    requires IsShift(i.op)
    ensures Means(i.op, Amount(i, vs), vt, Shifted(i, vs, vt))
  {
    hide Bit, DigitOf, Shifted, Amount;
    forall k: nat | k < 32 ensures Bit(Shifted(i, vs, vt), k) == DigitOf(i.op, Amount(i, vs), vt, k) {
      ShiftDigits(i, vs, vt, k);
    }
  }

  // ---------- Instructions ----------

  predicate TakesImmediate(op: Op) { op in {ADDI, ADDIU, SLTI, SLTIU, ANDI, ORI, XORI, LUI} }

  /** The word b stands for the immediate: with its sign, or as sixteen digits. */
  predicate StandsFor(op: Op, imm: Int16, b: Word) {
    if op in {ADDI, ADDIU, SLTI, SLTIU} then Signed(b) == imm else b < 0x1_0000 && (b - imm) % 0x1_0000 == 0
  }

  /** The sum or difference of signed numbers does not fit. */
  predicate Overflows(i: Inst, vs: Word, vt: Word) {
    var x := if i.op.ADDI? then Signed(vs) + i.imm
             else if i.op.SUB? then Signed(vs) - Signed(vt) else Signed(vs) + Signed(vt);
    (i.op.ADD? || i.op.ADDI? || i.op.SUB?) && !(-0x8000_0000 <= x < 0x8000_0000)
  }

  function First(i: Inst, vs: Word): Word { if IsShift(i.op) then Amount(i, vs) else vs }

  /** Every computing instruction writes one register, with the meaning of its operation on its
      operands, and does nothing else. */
  lemma ExecComputes(i: Inst, vs: Word, vt: Word, s: Sys) returns (b: Word, r: Word)
    requires (ByNumbers(i.op) || ByDigits(i.op)) && !Overflows(i, vs, vt)
    ensures if TakesImmediate(i.op) then StandsFor(i.op, i.imm, b) else b == vt
    ensures Means(i.op, First(i, vs), b, r)
    ensures Exec(i, vs, vt, s) == Done(Some(RegWrite(if TakesImmediate(i.op) then i.rt else i.rd, r)), None, s)
  {
    hide Means, Overflows, Exec, StandsFor, TakesImmediate, First, ByNumbers, ByDigits, IsSum, IsShift, IsCompute;
    ComputingKinds(i.op);
    if IsSum(i.op) { b, r := SumComputes(i, vs, vt, s); }
    else if IsShift(i.op) { b, r := ShiftComputes(i, vs, vt, s); }
    else { b, r := PlainComputes(i, vs, vt, s); }
  }

  lemma ComputingKinds(op: Op)
    requires ByNumbers(op) || ByDigits(op)
    ensures IsSum(op) || IsShift(op) || IsCompute(op)
  {
  }

  lemma SumComputes(i: Inst, vs: Word, vt: Word, s: Sys) returns (b: Word, r: Word)
    requires IsSum(i.op) && !Overflows(i, vs, vt)
    ensures if TakesImmediate(i.op) then StandsFor(i.op, i.imm, b) else b == vt
    ensures Means(i.op, First(i, vs), b, r)
    ensures Exec(i, vs, vt, s) == Done(Some(RegWrite(if TakesImmediate(i.op) then i.rt else i.rd, r)), None, s)
  {
    b := if i.op.ADDI? then Wrap(i.imm) else vt;
    r := Wrap(ExactSum(i, vs, vt));
    WrapIsSigned(ExactSum(i, vs, vt));
  }

  lemma ShiftComputes(i: Inst, vs: Word, vt: Word, s: Sys) returns (b: Word, r: Word)
    requires IsShift(i.op)
    ensures b == vt && !TakesImmediate(i.op) && Means(i.op, First(i, vs), b, r)
    ensures Exec(i, vs, vt, s) == Done(Some(RegWrite(i.rd, r)), None, s)
  {
    hide Means, Shifted, Amount;
    b, r := vt, Shifted(i, vs, vt);
    ShiftMeans(i, vs, vt);
  }

  lemma PlainComputes(i: Inst, vs: Word, vt: Word, s: Sys) returns (b: Word, r: Word)
    requires IsCompute(i.op)
    ensures if TakesImmediate(i.op) then StandsFor(i.op, i.imm, b) else b == vt
    ensures Means(i.op, First(i, vs), b, r)
    ensures Exec(i, vs, vt, s) == Done(Some(RegWrite(if TakesImmediate(i.op) then i.rt else i.rd, r)), None, s)
  {
    hide Means, Compute, Codec.Imm16, Amount;
    b := if IsImmediate(i.op) then Operand(i) else vt;
    r := Compute(i.op, vs, b);
    if IsImmediate(i.op) { OperandStands(i); }
    ComputeMeans(i.op, vs, b);
  }

  lemma OperandStands(i: Inst)
    requires IsImmediate(i.op)
    ensures StandsFor(i.op, i.imm, Operand(i))
  {
    ModUnique(Codec.Imm16(i) - i.imm, 0x1_0000, -(i.imm / 0x1_0000), 0);
  }

  /** A signed sum or difference that does not fit raises exception 12 and writes nothing. */
  lemma OverflowRaises(i: Inst, vs: Word, vt: Word, s: Sys)
    requires Overflows(i, vs, vt)
    ensures Exec(i, vs, vt, s) == Done(None, None, Raise(s, 12))
  {
    hide Raise;
  }

  // ---------- Laws of the order and of sums ----------

  /** The three-register instruction i writes r. */
  predicate Writes(i: Inst, vs: Word, vt: Word, s: Sys, r: Word) {
    Exec(i, vs, vt, s) == Done(Some(RegWrite(i.rd, r)), None, s)
  }

  lemma WritesMeant(i: Inst, vs: Word, vt: Word, s: Sys, r: Word)
    requires i.op in {ADDU, SUBU, SLT, SLTU, AND, OR, XOR, NOR} && Means(i.op, vs, vt, r)
    ensures forall x: Word :: Writes(i, vs, vt, s, x) <==> x == r
  {
    hide Means, Exec;
    WritesPlainly(i.op);
    var b, y := ExecComputes(i, vs, vt, s);
    OneMeaning(i.op, vs, vt, r, y);
  }

  lemma WritesPlainly(op: Op)
    requires op in {ADDU, SUBU, SLT, SLTU, AND, OR, XOR, NOR}
    ensures (ByNumbers(op) || ByDigits(op)) && !TakesImmediate(op) && !IsShift(op) && !op.ADD? && !op.ADDI? && !op.SUB?
  {
  }

  predicate IsOrder(i: Inst) { i.op.SLT? || i.op.SLTU? }

  /** No word is below itself, */
  lemma OrderIrreflexive(i: Inst, a: Word, s: Sys)
    requires IsOrder(i)
    ensures Writes(i, a, a, s, 0)
  {
    WritesMeant(i, a, a, s, 0);
  }

  /** the order is transitive, */
  lemma OrderTransitive(i: Inst, a: Word, b: Word, c: Word, s: Sys)
    requires IsOrder(i) && Writes(i, a, b, s, 1) && Writes(i, b, c, s, 1)
    ensures Writes(i, a, c, s, 1)
  {
    hide Writes;
    OrderMeant(i, a, b, s);
    OrderMeant(i, b, c, s);
    OrderMeant(i, a, c, s);
  }

  lemma OrderMeant(i: Inst, a: Word, b: Word, s: Sys)
    requires IsOrder(i)
    ensures Writes(i, a, b, s, 1) <==> if i.op.SLT? then Signed(a) < Signed(b) else a < b
    ensures Writes(i, a, b, s, 0) <==> !Writes(i, a, b, s, 1)
  {
    hide Writes;
    var r: Word := if (if i.op.SLT? then Signed(a) < Signed(b) else a < b) then 1 else 0;
    WritesMeant(i, a, b, s, r);
  }

  /** two different words are ordered one way, */
  lemma OrderTotal(i: Inst, a: Word, b: Word, s: Sys)
    requires IsOrder(i) && a != b
    ensures Writes(i, a, b, s, 1) <==> Writes(i, b, a, s, 0)
  {
    hide Writes;
    OrderMeant(i, a, b, s);
    OrderMeant(i, b, a, s);
    if Signed(a) == Signed(b) { SignedApart(a, b); }
  }

  /** and adding 1 goes up, but from the greatest number, signed or unsigned. */
  lemma OrderSuccessor(i: Inst, a: Word, s: Sys)
    requires IsOrder(i)
    ensures Writes(i, a, Wrap(a + 1), s, 1) <==> a != (if i.op.SLT? then 0x7fff_ffff else 0xffff_ffff)
  {
    hide Writes;
    OrderMeant(i, a, Wrap(a + 1), s);
  }

  /** SUBU takes off what ADDU has added. */
  lemma SubuUndoesAddu(i: Inst, j: Inst, a: Word, b: Word, s: Sys, r: Word)
    requires i.op.ADDU? && j.op.SUBU? && Writes(i, a, b, s, r)
    ensures Writes(j, r, b, s, a)
  {
    hide Writes, Means, Wrap;
    WrapIsModulo(a + b);
    SumMeant(ADDU, a, b, Wrap(a + b));
    WritesMeant(i, a, b, s, Wrap(a + b));
    TakenOff(a, b, r);
    SumMeant(SUBU, r, b, a);
    WritesMeant(j, r, b, s, a);
  }

  lemma SumMeant(op: Op, a: Word, b: Word, r: Word)
    requires (op.ADDU? && (a + b - r) % 0x1_0000_0000 == 0) || (op.SUBU? && (a - b - r) % 0x1_0000_0000 == 0)
    ensures Means(op, a, b, r)
  {
    hide MeansDigits;
  }

  lemma TakenOff(a: Word, b: Word, r: Word)
    requires (a + b - r) % 0x1_0000_0000 == 0
    ensures (r - b - a) % 0x1_0000_0000 == 0
  {
    var k := (a + b - r) / 0x1_0000_0000;
    ModUnique(r - b - a, 0x1_0000_0000, -k, 0);
  }

  /** The immediate forms compare with the word that the sign extends to. */
  lemma OrderImmediate(i: Inst, j: Inst, a: Word, b: Word, s: Sys, r: Word)
    requires (i.op.SLTI? && j.op.SLT?) || (i.op.SLTIU? && j.op.SLTU?)
    requires Signed(b) == i.imm
    ensures Exec(i, a, 0, s) == Done(Some(RegWrite(i.rt, r)), None, s) <==> Writes(j, a, b, s, r)
  {
    hide Means, Exec;
    var c, x := ExecComputes(i, a, 0, s);
    SignedApart(b, c);
    SameOrder(i.op, j.op, a, b, x);
    WritesMeant(j, a, b, s, x);
  }

  lemma SameOrder(op: Op, op': Op, a: Word, b: Word, r: Word)
    requires (op.SLTI? && op'.SLT?) || (op.SLTIU? && op'.SLTU?)
    requires Means(op, a, b, r)
    ensures Means(op', a, b, r)
  {
  }
}
