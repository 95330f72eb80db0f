/** Products, HI and LO, and the moves: what each instruction leaves, and which one undoes which. */
module HiLo {
  import opened Word
  import opened Instruction
  import opened Isa
  import opened Arithmetic
  import Multiplier

  /** HI and LO as one number. */
  function PairOf(s: Sys): int { s.hi * 0x1_0000_0000 + s.lo }

  const PAIRS := 0x1_0000_0000_0000_0000

  /** What a product leaves in HI:LO that held the number n, modulo 2^64. */
  predicate Multiplies(op: Op, n: int, a: Word, b: Word, m: int) {
    Leaves(op, n, a * b, Signed(a) * Signed(b), m)
  }

  /** u and p are the unsigned and the signed product. */
  predicate Leaves(op: Op, n: int, u: int, p: int, m: int) {
    if op.MULTU? then m == u
    else if op.MULT? || op.MUL? then (m - p) % PAIRS == 0
    else if op.MADDU? then (m - (n + u)) % PAIRS == 0
    else if op.MADD? then (m - (n + p)) % PAIRS == 0
    else if op.MSUBU? then (m - (n - u)) % PAIRS == 0
    else (m - (n - p)) % PAIRS == 0
  }

  lemma SetPair(s: Sys, n: int)
    ensures PairOf(SetHiLo(s, n)) == n % PAIRS && SetHiLo(s, n) == s.(hi := SetHiLo(s, n).hi, lo := SetHiLo(s, n).lo)
    ensures (PairOf(SetHiLo(s, n)) - n) % PAIRS == 0
  {
    var q := n / PAIRS;
    var r := n % PAIRS;
    ModUnique(n, 0x1_0000_0000, q * 0x1_0000_0000 + r / 0x1_0000_0000, r % 0x1_0000_0000);
    ModUnique(r - n, PAIRS, -q, 0);
  }

  lemma UnsignedFits(a: Word, b: Word)
    ensures 0 <= a * b < PAIRS
  {
    Multiplier.ProductBound(a, b, 0xffff_ffff);
  }

  lemma ProductPair(op: Op, a: Word, b: Word, s: Sys)
    requires IsMultiply(op)
    ensures Multiplies(op, PairOf(s), a, b, PairOf(Multiply(op, a, b, s)))
    ensures Multiply(op, a, b, s) == s.(hi := Multiply(op, a, b, s).hi, lo := Multiply(op, a, b, s).lo)
  {
    hide SetHiLo, PairOf, HiLo, Leaves;
    UnsignedFits(a, b);
    SamePair(s);
    ProductLeaves(op, a * b, Signed(a) * Signed(b), s);
    SetPair(s, PairBefore(op, a * b, Signed(a) * Signed(b), HiLo(s)));
  }

  /** The number that goes to HI:LO, before it is cut. */
  function PairBefore(op: Op, u: int, p: int, n: int): int
    requires IsMultiply(op)
  {
    match op
    case MULT | MUL => p
    case MULTU => u
    case MADD => n + p
    case MADDU => n + u
    case MSUB => n - p
    case MSUBU => n - u
  }

  lemma ProductLeaves(op: Op, u: int, p: int, s: Sys)
    requires IsMultiply(op) && 0 <= u < PAIRS
    ensures Leaves(op, PairOf(s), u, p, PairOf(SetHiLo(s, PairBefore(op, u, p, HiLo(s)))))
  {
    hide SetHiLo, PairOf;
    SamePair(s);
    SetPair(s, PairBefore(op, u, p, HiLo(s)));
  }

  lemma SamePair(s: Sys)
    ensures HiLo(s) == PairOf(s)
  {
  }

  /** The seven products: HI:LO changes as the name says, MUL also writes the low half of the product
      to rd, and nothing else happens. */
  lemma ExecMultiplies(i: Inst, a: Word, b: Word, s: Sys) returns (t: Sys)
    requires i.op in {MULT, MULTU, MUL, MADD, MADDU, MSUB, MSUBU}
    ensures Multiplies(i.op, PairOf(s), a, b, PairOf(t)) && t == s.(hi := t.hi, lo := t.lo)
    ensures Exec(i, a, b, s) == Done(if i.op.MUL? then Some(RegWrite(i.rd, t.lo)) else None, None, t)
  {
    hide Multiply, PairOf, Multiplies, IsCompute, IsSum, IsShift, IsMove;
    ProductOnly(i.op);
    t := Multiply(i.op, a, b, s);
    ProductPair(i.op, a, b, s);
  }

  lemma ProductOnly(op: Op)
    requires op in {MULT, MULTU, MUL, MADD, MADDU, MSUB, MSUBU}
    ensures IsMultiply(op) && !IsCompute(op) && !IsSum(op) && !IsShift(op) && !IsMove(op)
  {
  }

  // ---------- Laws ----------

  /** Two states that differ in HI and LO at most, and hold the same number there, are the same. */
  lemma SameHiLo(s: Sys, t: Sys)
    requires t == s.(hi := t.hi, lo := t.lo) && (PairOf(t) - PairOf(s)) % PAIRS == 0
    ensures t == s
  {
    var k := (PairOf(t) - PairOf(s)) / PAIRS;
    assert PairOf(t) - PairOf(s) == k * PAIRS;
  }

  /** Onto a zero, accumulating is multiplying. */
  lemma AddsToZero(i: Inst, j: Inst, a: Word, b: Word, s: Sys)
    requires (i.op.MADD? && j.op.MULT?) || (i.op.MADDU? && j.op.MULTU?)
    requires s.hi == 0 && s.lo == 0
    ensures Exec(i, a, b, s) == Exec(j, a, b, s)
  {
    hide Exec;
    var t := ExecMultiplies(i, a, b, s);
    var u := ExecMultiplies(j, a, b, s);
    var p := if i.op.MADD? then Signed(a) * Signed(b) else a * b;
    Congruent(PairOf(t), PairOf(u), p);
    SameHiLo(u, t);
  }

  lemma Congruent(x: int, y: int, p: int)
    requires (x - p) % PAIRS == 0 && (y - p) % PAIRS == 0
    ensures (x - y) % PAIRS == 0
  {
    var k := (x - p) / PAIRS - (y - p) / PAIRS;
    ModUnique(x - y, PAIRS, k, 0);
  }

  /** MSUB takes off what MADD has added, and MADD adds what MSUB has taken off, unsigned too. */
  lemma Undoes(i: Inst, j: Inst, a: Word, b: Word, s: Sys, t: Sys)
    requires (i.op.MADD? && j.op.MSUB?) || (i.op.MSUB? && j.op.MADD?) ||
             (i.op.MADDU? && j.op.MSUBU?) || (i.op.MSUBU? && j.op.MADDU?)
    requires Exec(i, a, b, s) == Quiet(t)
    ensures Exec(j, a, b, t) == Quiet(s)
  {
    hide Exec;
    var t' := ExecMultiplies(i, a, b, s);
    var u := ExecMultiplies(j, a, b, t);
    var p := if i.op.MADD? || i.op.MSUB? then Signed(a) * Signed(b) else a * b;
    BackAgain(PairOf(s), PairOf(t), PairOf(u), if i.op.MADD? || i.op.MADDU? then p else -p);
    SameHiLo(s, u);
  }

  lemma BackAgain(n: int, m: int, k: int, p: int)
    requires (m - (n + p)) % PAIRS == 0 && (k - (m - p)) % PAIRS == 0
    ensures (k - n) % PAIRS == 0
  {
    var x := (m - (n + p)) / PAIRS + (k - (m - p)) / PAIRS;
    ModUnique(k - n, PAIRS, x, 0);
  }

  /** Multiplying by 1 puts the operand into LO, and its sign, or nothing, into HI. */
  lemma TimesOne(i: Inst, a: Word, s: Sys)
    requires i.op.MULT? || i.op.MULTU?
    ensures Exec(i, a, 1, s) == Quiet(s.(lo := a, hi := if i.op.MULT? && a >= 0x8000_0000 then 0xffff_ffff else 0))
  {
    hide Exec;
    var t := ExecMultiplies(i, a, 1, s);
    var u := s.(lo := a, hi := if i.op.MULT? && a >= 0x8000_0000 then 0xffff_ffff else 0);
    Congruent(PairOf(t), PairOf(u), if i.op.MULT? then Signed(a) else a);
    SameHiLo(u, t);
  }

  /** Products add up in their second operand, as long as that itself does not overflow. */
  lemma Distributes(i: Inst, a: Word, b: Word, c: Word, d: Word, s: Sys, t: Sys, u: Sys, w: Sys)
    requires (i.op.MULT? && Signed(d) == Signed(b) + Signed(c)) || (i.op.MULTU? && d == b + c)
    requires Exec(i, a, b, s) == Quiet(t) && Exec(i, a, c, s) == Quiet(u) && Exec(i, a, d, s) == Quiet(w)
    ensures (PairOf(w) - PairOf(t) - PairOf(u)) % PAIRS == 0
  {
    hide Exec, PairOf;
    var t' := ExecMultiplies(i, a, b, s);
    var u' := ExecMultiplies(i, a, c, s);
    var w' := ExecMultiplies(i, a, d, s);
    if i.op.MULT? {
      ProductsAdd(Signed(a), Signed(b), Signed(c), Signed(d), PairOf(t), PairOf(u), PairOf(w));
    } else {
      EqualPairs(PairOf(t), a * b);
      EqualPairs(PairOf(u), a * c);
      EqualPairs(PairOf(w), a * d);
      ProductsAdd(a, b, c, d, PairOf(t), PairOf(u), PairOf(w));
    }
  }

  lemma EqualPairs(x: int, p: int)
    requires x == p
    ensures (x - p) % PAIRS == 0
  {
  }

  lemma ProductsAdd(a: int, b: int, c: int, d: int, x: int, y: int, z: int)
    requires d == b + c && (x - a * b) % PAIRS == 0 && (y - a * c) % PAIRS == 0 && (z - a * d) % PAIRS == 0
    ensures (z - x - y) % PAIRS == 0
  {
    assert a * d == a * b + a * c;
    SumsUp(x, y, z, a * b, a * c);
  }

  lemma SumsUp(x: int, y: int, z: int, p: int, q: int)
    requires (x - p) % PAIRS == 0 && (y - q) % PAIRS == 0 && (z - (p + q)) % PAIRS == 0
    ensures (z - x - y) % PAIRS == 0
  {
    var k := (z - (p + q)) / PAIRS - (x - p) / PAIRS - (y - q) / PAIRS;
    ModUnique(z - x - y, PAIRS, k, 0);
  }

  // ---------- Moves ----------

  lemma MoveOnly(op: Op)
    requires IsMove(op)
    ensures IsRegister(op) && !IsCompute(op) && !IsSum(op) && !IsShift(op)
  {
  }

  lemma ExecMoves(i: Inst, vs: Word, vt: Word, s: Sys)
    requires IsMove(i.op)
    ensures Exec(i, vs, vt, s) == Move(i, vs, vt, s)
  {
    hide IsMove, IsRegister, IsCompute, IsSum, IsShift, Move;
    MoveOnly(i.op);
  }

  /** HI keeps what is moved there, LO stays, and MFHI reads it back; and the other way around. */
  lemma HalvesComeBack(i: Inst, j: Inst, k: Inst, a: Word, x: Word, y: Word, s: Sys) returns (t: Sys)
    requires (i.op.MTHI? && j.op.MFHI? && k.op.MFLO?) || (i.op.MTLO? && j.op.MFLO? && k.op.MFHI?)
    ensures Exec(i, a, x, s) == Quiet(t) && t.pc == s.pc && t.cp0 == s.cp0 && t.mem == s.mem
    ensures Exec(j, x, y, t) == Done(Some(RegWrite(j.rd, a)), None, t)
    ensures Exec(k, x, y, t) == Done(Some(RegWrite(k.rd, if i.op.MTHI? then s.lo else s.hi)), None, t)
  {
    hide Exec;
    ExecMoves(i, a, x, s);
    t := Move(i, a, x, s).sys;
    ExecMoves(j, x, y, t);
    ExecMoves(k, x, y, t);
  }

  /** MFHI and MFLO read the two words of an unsigned product. */
  lemma ProductRead(i: Inst, j: Inst, k: Inst, a: Word, b: Word, s: Sys, t: Sys, x: Word) returns (h: Word, l: Word)
    requires i.op.MULTU? && j.op.MFHI? && k.op.MFLO? && Exec(i, a, b, s) == Quiet(t)
    ensures Exec(j, x, x, t) == Done(Some(RegWrite(j.rd, h)), None, t)
    ensures Exec(k, x, x, t) == Done(Some(RegWrite(k.rd, l)), None, t)
    ensures h * 0x1_0000_0000 + l == a * b
  {
    hide Exec;
    var t' := ExecMultiplies(i, a, b, s);
    ExecMoves(j, x, x, t);
    ExecMoves(k, x, x, t);
    h, l := t.hi, t.lo;
  }

  /** Of MOVN and MOVZ on the same registers, exactly one moves: MOVZ if the second operand is zero. */
  lemma OneMoves(i: Inst, j: Inst, a: Word, b: Word, s: Sys)
    requires i.op.MOVN? && j.op.MOVZ? && i.rd == j.rd
    ensures Exec(if b == 0 then j else i, a, b, s) == Done(Some(RegWrite(i.rd, a)), None, s)
    ensures Exec(if b == 0 then i else j, a, b, s) == Done(None, None, s)
  {
    hide Exec;
    ExecMoves(i, a, b, s);
    ExecMoves(j, a, b, s);
  }

  // ---------- Leading digits ----------

  lemma {:induction false} RunOfZeros(w: Word, n: nat)
    requires n <= 32
    ensures var k := LeadingRun(w, false, n);
            && k <= n
            && (forall i: nat | n - k <= i < n :: !Bit(w, i)) && (k < n ==> Bit(w, n - 1 - k))
  {
    if n > 0 && !Bit(w, n - 1) { RunOfZeros(w, n - 1); }
  }

  lemma {:induction false} RunOfOnes(w: Word, n: nat)
    requires n <= 32
    ensures LeadingRun(w, true, n) == LeadingRun(Not(w), false, n)
  {
    if n > 0 {
      PowersOfTwo();
      NotBits(w, 32, n - 1);
      RunOfOnes(w, n - 1);
    }
  }

  /** CLZ counts the zeros above the highest one; CLO does that on the complement. */
  lemma CountsLeading(i: Inst, j: Inst, a: Word, x: Word, s: Sys) returns (n: Word)
    requires i.op.CLZ? && j.op.CLO?
    ensures Exec(i, a, x, s) == Done(Some(RegWrite(i.rd, n)), None, s)
    ensures Exec(j, Not(a), x, s) == Done(Some(RegWrite(j.rd, n)), None, s)
    ensures n <= 32 && (forall k: nat | 32 - n <= k < 32 :: !Bit(a, k)) && (n < 32 ==> Bit(a, 31 - n))
  {
    hide Exec, LeadingRun;
    LeadingRunBound(a, false, 32);
    n := LeadingRun(a, false, 32);
    RunOfZeros(a, 32);
    RunOfOnes(Not(a), 32);
    assert Not(Not(a)) == a;
    ExecMoves(i, a, x, s);
    ExecMoves(j, Not(a), x, s);
  }
}
