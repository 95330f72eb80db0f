/** The shifts digit by digit: what their arithmetic definitions mean. */
module Shifts {
  import opened Word
  import opened Masks
  import Isa

  lemma {:induction false} MulBits(v: nat, n: nat, i: nat)
    ensures Bit(v * Pow2(n), i) == (i >= n && Bit(v, i - n))
    decreases n
  {
    if n > 0 {
      MulTwice(v, Pow2(n - 1));
      if i > 0 { MulBits(v, n - 1, i - 1); }
    }
  }

  lemma {:induction false} DivBits(v: nat, n: nat, q: nat, i: nat)
    requires q == v / Pow2(n)
    ensures Bit(q, i) == Bit(v, i + n)
    decreases n
  {
    if n > 0 {
      DivTwice(v, Pow2(n - 1));
      DivBits(v / 2, n - 1, q, i);
    }
  }

  lemma DivTwice(v: nat, h: nat)
    requires h > 0
    ensures v / (2 * h) == v / 2 / h
  {
    var q, r := v / 2 / h, v / 2 % h;
    DivMod(v / 2, h);
    MulTwice(q, h);
    ModUnique(v, 2 * h, q, 2 * r + v % 2);
  }

  lemma {:induction false} LowBits(w: nat, n: nat, i: nat)
    requires i < n
    ensures Bit(w % Pow2(n), i) == Bit(w, i)
    decreases n
  {
    ModDouble(w, Pow2(n - 1));
    if i > 0 { LowBits(w / 2, n - 1, i - 1); }
  }

  lemma {:induction false} HighBits(hi: nat, lo: nat, k: nat, i: nat)
    requires lo < Pow2(k)
    ensures Bit(hi * Pow2(k) + lo, i) == if i < k then Bit(lo, i) else Bit(hi, i - k)
    decreases k
  {
    if k > 0 {
      MulTwice(hi, Pow2(k - 1));
      if i > 0 { HighBits(hi, lo / 2, k - 1, i - 1); }
    }
  }

  lemma {:induction false} Ones(n: nat, i: nat)
    requires i < n
    ensures Bit(Pow2(n) - 1, i)
    decreases n
  {
    if i > 0 { Ones(n - 1, i - 1); }
  }

  /** `<<` moves the digits up, and brings in zeros. */
  lemma ShiftLeftBits(v: Word, n: nat, i: nat)
    requires n < 32 && i < 32
    ensures Bit(Isa.ShiftLeft(v, n), i) == (i >= n && Bit(v, i - n))
  {
    PowersOfTwo();
    LowBits(v * Pow2(n), 32, i);
    MulBits(v, n, i);
  }

  /** `>>` of an unsigned word moves them down, and brings in zeros. */
  lemma ShiftRightBits(v: Word, n: nat, i: nat)
    requires n < 32 && i < 32
    ensures Bit(Isa.ShiftRight(v, n), i) == (i + n < 32 && Bit(v, i + n))
  {
    ShiftDivides(v, n, Pow2(n));
    QuotientBits(v, n, Isa.ShiftRight(v, n), i);
  }

  lemma QuotientBits(v: Word, n: nat, q: nat, i: nat)
    requires q == v / Pow2(n)
    ensures Bit(q, i) == (i + n < 32 && Bit(v, i + n))
  {
    DivBits(v, n, q, i);
    if i + n >= 32 { AboveWord(v, i + n); }
  }

  lemma AboveWord(v: Word, i: nat)
    requires i >= 32
    ensures !Bit(v, i)
  {
    PowersOfTwo();
    DivBits(v, 32, 0, i - 32);
    NoBits(i - 32);
  }

  lemma {:induction false} NoBits(i: nat)
    ensures !Bit(0, i)
  {
    if i > 0 { NoBits(i - 1); }
  }

  /** `>>` of a signed word brings in copies of the sign. */
  lemma ShiftArithBits(v: Word, n: nat, i: nat)
    requires n < 32 && i < 32
    ensures Bit(Isa.ShiftArith(v, n), i) == Bit(v, if i + n < 32 then i + n else 31)
  {
    hide Bit, Isa.ShiftArith;
    SignDigit(v);
    var q := Isa.ShiftRight(v, n);
    ShiftDivides(v, n, Pow2(n));
    QuotientBits(v, n, q, i);
    ArithParts(v, n, Pow2(n), Pow2(32 - n), q);
    if v >= 0x8000_0000 {
      HighBits(Pow2(n) - 1, q, 32 - n, i);
      if i + n >= 32 { Ones(n, i + n - 32); }
    }
  }

  lemma SignDigit(v: Word)
    ensures Bit(v, 31) == (v >= 0x8000_0000)
  {
    PowersOfTwo();
    DivBits(v, 31, v / 0x8000_0000, 0);
  }

  lemma {:induction false} PowersMultiply(n: nat, k: nat)
    ensures Pow2(n) * Pow2(k) == Pow2(n + k)
    decreases n
  {
    if n > 0 {
      PowersMultiply(n - 1, k);
      Regroup(Pow2(n), Pow2(n - 1), Pow2(k));
    }
  }

  lemma Regroup(x: int, h: int, y: int)
    requires x == 2 * h
    ensures x * y == 2 * (h * y)
  {
  }

  /** The quotient of a negative word: its own digits below ones. */
  lemma ArithParts(v: Word, n: nat, d: nat, k: nat, q: nat)
    requires n < 32 && d == Pow2(n) && k == Pow2(32 - n) && q == v / d
    ensures q < k
    ensures Isa.ShiftArith(v, n) == if v < 0x8000_0000 then q else (d - 1) * k + q
  {
    PowersOfTwo();
    PowersMultiply(n, 32 - n);
    DivMod(v, d);
    if q >= k { MulMonotone(k, q, d); }
    if v < 0x8000_0000 { QuotientBound(v, d, q); } else { NegativeParts(v, d, k, q, v % d); }
  }

  lemma NegativeParts(v: Word, d: nat, k: nat, q: nat, r: nat)
    requires v >= 0x8000_0000 && d * k == 0x1_0000_0000 && v == q * d + r && r < d && q < k
    ensures Wrap(Signed(v) / d) == (d - 1) * k + q
  {
    NegativeQuotient(Signed(v), q, r, d, k);
    assert (d - 1) * k == d * k - k;
    SameWrap(q - k, (d - 1) * k + q, -1);
  }
}
