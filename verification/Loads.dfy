/** What the loads and stores do with the numbers in memory: how many bytes they move, and how a
    number that is narrower than a register is extended. */
module Loads {
  import opened Word
  import opened Instruction
  import opened Isa

  /** The loads and stores of whole numbers. */
  predicate LoadsNumber(op: Op) { op in {LB, LBU, LH, LHU, LW, LL} }

  predicate StoresNumber(op: Op) { op in {SB, SH, SW, SC} }

  /** The number of bytes. */
  function Width(op: Op): nat { if op in {LB, LBU, SB} then 1 else if op in {LH, LHU, SH} then 2 else 4 }

  /** One more than the greatest number of k bytes. */
  function Beyond(k: nat): nat { if k == 0 then 1 else 0x100 * Beyond(k - 1) }

  /** v is the register for the stored number n: it agrees with n in the digits that were stored, and
      lies in the signed or the unsigned range. */
  predicate Delivers(op: Op, n: int, v: Word) {
    if op.LB? then -128 <= Signed(v) < 128 && (v - n) % 0x100 == 0
    else if op.LBU? then v < 256 && (v - n) % 0x100 == 0
    else if op.LH? then -32768 <= Signed(v) < 32768 && (v - n) % 0x1_0000 == 0
    else if op.LHU? then v < 65536 && (v - n) % 0x1_0000 == 0
    else (v - n) % 0x1_0000_0000 == 0
  }

  lemma Extends(op: Op, n: Word, vt: Word, ea: Word, faulted: bool)
    requires LoadsNumber(op) && n < Beyond(Width(op))
    ensures Delivers(op, n, LoadResult(op, SignExtend(n, SizeOf(op)), vt, ea, faulted))
  {
    hide Delivers, SignExtend, MergeLeft, MergeRight;
    assert Beyond(1) == 0x100 && Beyond(2) == 0x1_0000;
    if Width(op) == 1 { ByteExtends(n); } else if Width(op) == 2 { HalfExtends(n); } else { WordDelivers(op, n); }
  }

  lemma ByteExtends(n: Word)
    requires n < 0x100
    ensures Delivers(LB, n, SignExtend(n, Byte1)) && Delivers(LBU, n, SignExtend(n, Byte1) % 0x100)
  {
    if n >= 0x80 { ModUnique(n + 0xffff_ff00, 0x100, 0xff_ffff, n); }
  }

  lemma WrapNegative(x: int)
    requires -0x8000_0000 <= x < 0
    ensures Wrap(x) == x + 0x1_0000_0000
  {
  }

  lemma HalfExtends(n: Word)
    requires n < 0x1_0000
    ensures Delivers(LH, n, SignExtend(n, Half2)) && Delivers(LHU, n, SignExtend(n, Half2) % 0x1_0000)
  {
    if n >= 0x8000 {
      hide Wrap;
      WrapNegative(n - 0x1_0000);
      ModUnique(n + 0xffff_0000, 0x1_0000, 0xffff, n);
    }
  }

  lemma WordDelivers(op: Op, n: Word)
    requires LoadsNumber(op) && Width(op) == 4
    ensures SignExtend(n, Word4) == n && Delivers(op, n, n)
  {
  }

  /** Only one register value will do. */
  lemma OneDelivered(op: Op, n: int, v: Word, w: Word)
    requires LoadsNumber(op) && Delivers(op, n, v) && Delivers(op, n, w)
    ensures v == w
  {
    var d := if Width(op) == 1 then 0x100 else if Width(op) == 2 then 0x1_0000 else 0x1_0000_0000;
    var p, q := (v - n) / d, (w - n) / d;
    assert v - w == (p - q) * d;
    NearMultiple(v - w, p - q, d);
    if op.LB? || op.LH? { NearMultipleSigned(v, w, p - q, d); }
  }

  lemma NearMultiple(x: int, k: int, d: int)
    requires x == k * d && d > 0
    ensures -d < x < d ==> x == 0
  {
    if k > 0 { MulDiffers(k, 0, d); } else if k < 0 { MulDiffers(k, 0, d); }
  }

  lemma NearMultipleSigned(v: Word, w: Word, k: int, d: int)
    requires (d == 0x100 && -128 <= Signed(v) < 128 && -128 <= Signed(w) < 128) ||
             (d == 0x1_0000 && -32768 <= Signed(v) < 32768 && -32768 <= Signed(w) < 32768)
    requires v - w == k * d
    ensures v == w
  {
    var e := 0x1_0000_0000 / d;
    var j := (if v < 0x8000_0000 then 0 else e) - (if w < 0x8000_0000 then 0 else e);
    assert Signed(v) - Signed(w) == (k - j) * d;
    NearMultiple(Signed(v) - Signed(w), k - j, d);
  }

  /** The numbers that come back from a load of the same width. */
  predicate InRange(op: Op, x: Word) {
    if op.LB? then -128 <= Signed(x) < 128
    else if op.LBU? then x < 256
    else if op.LH? then -32768 <= Signed(x) < 32768
    else if op.LHU? then x < 65536
    else true
  }

  lemma InRangeDelivers(op: Op, x: Word)
    ensures InRange(op, x) <==> Delivers(op, x, x)
  {
  }

  // ---------- Bytes ----------

  /** Byte k of a word, the lowest first. */
  function ByteDigit(x: Word, k: nat): int {
    if k == 0 then x % 0x100
    else if k == 1 then x / 0x100 % 0x100
    else if k == 2 then x / 0x1_0000 % 0x100
    else x / 0x100_0000
  }

  lemma ByteDigitIs(x: Word, k: nat)
    ensures ByteDigit(x, k) == ByteOf(x, k)
  {
  }

  /** The k bytes of a word make the number modulo what is beyond them. */
  lemma DigitsMake(x: Word)
    ensures (x - ByteDigit(x, 0)) % 0x100 == 0
    ensures (x - (ByteDigit(x, 0) + 0x100 * ByteDigit(x, 1))) % 0x1_0000 == 0
    ensures x == ByteDigit(x, 0) + 0x100 * (ByteDigit(x, 1) + 0x100 * (ByteDigit(x, 2) + 0x100 * ByteDigit(x, 3)))
  {
    var p, q, r := x / 0x100, x / 0x1_0000, x / 0x100_0000;
    QuotientTwice(x, 0x100);
    QuotientTwice(x, 0x1_0000);
    ModUnique(x - x % 0x100, 0x100, p, 0);
    ModUnique(q * 0x1_0000, 0x1_0000, q, 0);
  }

  lemma QuotientTwice(x: Word, d: nat)
    requires d == 0x100 || d == 0x1_0000
    ensures x / d == x / (d * 0x100) * 0x100 + x / d % 0x100
  {
  }
}
