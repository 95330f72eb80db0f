/** What DIV and DIVU leave in LO and HI: a quotient and a remainder. */
module Division {
  import opened Word
  import opened Instruction
  import opened Isa

  lemma NegativeProduct(a: int, b: int)
    ensures (-a) * b == -(a * b) && a * (-b) == -(a * b) && (-a) * (-b) == a * b
  {
  }

  /** C's division: the quotient is cut toward zero, and the remainder has the sign of the dividend. */
  lemma TruncatingLaw(a: int, b: int)
    requires b != 0
    ensures TruncDiv(a, b) * b + TruncMod(a, b) == a
    ensures Abs(TruncMod(a, b)) < Abs(b)
    ensures TruncMod(a, b) == 0 || (TruncMod(a, b) < 0) == (a < 0)
  {
    var q, d := Abs(a) / Abs(b), Abs(b);
    DivMod(Abs(a), d);
    NegativeProduct(q, b);
    NegativeProduct(q, d);
  }

  lemma QuotientWithin(a: int, b: int)
    requires b != 0
    ensures Abs(TruncDiv(a, b)) <= Abs(a)
  {
    var q, d := Abs(a) / Abs(b), Abs(b);
    DivMod(Abs(a), d);
    AtLeast(q, d);
  }

  lemma AtLeast(q: int, d: int)
    requires q >= 0 && d >= 1
    ensures q * d >= q
  {
  }

  /** C's quotient and remainder, from the ones whose remainder is never negative. */
  method TruncatedDivision(a: int, b: int) returns (q: int, r: int)
    requires b != 0
    ensures q == TruncDiv(a, b) && r == TruncMod(a, b)
  {
    q := a / b;
    if a % b != 0 && a < 0 {
      q := if b > 0 then q + 1 else q - 1;
    }
    r := a - q * b;
    OneQuotient(a, b, q, r);
  }

  /** The law determines the quotient. */
  lemma OneQuotient(a: int, b: int, q: int, r: int)
    requires b != 0 && q * b + r == a && Abs(r) < Abs(b) && (r == 0 || (r < 0) == (a < 0))
    ensures q == TruncDiv(a, b) && r == TruncMod(a, b)
  {
    hide TruncDiv, TruncMod;
    var p, s := TruncDiv(a, b), TruncMod(a, b);
    TruncatingLaw(a, b);
    Difference(q, p, b, r, s);
    SameSide(a, b, r, s);
    SmallMultiple(q - p, b, s - r);
  }

  lemma Difference(q: int, p: int, b: int, r: int, s: int)
    requires q * b + r == p * b + s
    ensures (q - p) * b == s - r
  {
  }

  lemma SameSide(a: int, b: int, r: int, s: int)
    requires Abs(r) < Abs(b) && (r == 0 || (r < 0) == (a < 0)) && Abs(s) < Abs(b) && (s == 0 || (s < 0) == (a < 0))
    ensures Abs(s - r) < Abs(b)
  {
  }

  lemma SmallMultiple(k: int, b: int, x: int)
    requires k * b == x && Abs(x) < Abs(b)
    ensures k == 0 && x == 0
  {
    if k > 0 { MulDiffers(k, 0, Abs(b)); } else if k < 0 { MulDiffers(k, 0, Abs(b)); }
    NegativeProduct(k, b);
  }

  /** The one quotient of words that does not fit is INT_MIN / -1. */
  lemma QuotientFits(vs: Word, vt: Word)
    requires Divides(vs, vt)
    ensures -0x8000_0000 <= TruncDiv(Signed(vs), Signed(vt)) < 0x8000_0000
  {
    var a, b := Signed(vs), Signed(vt);
    QuotientWithin(a, b);
    if TruncDiv(a, b) == 0x8000_0000 {
      TruncatingLaw(a, b);
      HalfRange(a, b, TruncMod(a, b));
    }
  }

  lemma HalfRange(a: int, b: int, r: int)
    requires -0x8000_0000 <= a < 0x8000_0000 && b != 0 && 0x8000_0000 * b + r == a && Abs(r) < Abs(b)
    requires r == 0 || (r < 0) == (a < 0)
    ensures a == -0x8000_0000 && b == -1
  {
  }

  lemma SignedBack(x: int)
    requires -0x8000_0000 <= x < 0x8000_0000
    ensures Signed(Wrap(x)) == x
  {
  }

  /** DIV: quotient times divisor plus remainder is the dividend, whenever the simulator divides at all. */
  lemma DivideLaw(vs: Word, vt: Word, s: Sys)
    requires Divides(vs, vt)
    ensures var t := Divide(DIV, vs, vt, s);
            && Signed(t.lo) * Signed(vt) + Signed(t.hi) == Signed(vs)
            && Abs(Signed(t.hi)) < Abs(Signed(vt))
            && (t.hi == 0 || (Signed(t.hi) < 0) == (Signed(vs) < 0))
            && t == s.(hi := t.hi, lo := t.lo)
  {
    hide TruncDiv, TruncMod;
    var a, b := Signed(vs), Signed(vt);
    TruncatingLaw(a, b);
    QuotientFits(vs, vt);
    SignedBack(TruncDiv(a, b));
    SignedBack(TruncMod(a, b));
  }

  /** DIVU likewise, on unsigned words; neither instruction touches HI and LO for a zero divisor or for
      0x80000000 / 0xffffffff. */
  lemma DivideUnsignedLaw(vs: Word, vt: Word, s: Sys)
    ensures var t := Divide(DIVU, vs, vt, s);
            if Divides(vs, vt) then t.lo * vt + t.hi == vs && t.hi < vt && t == s.(hi := t.hi, lo := t.lo)
            else t == s && Divide(DIV, vs, vt, s) == s
  {
    if Divides(vs, vt) { DivMod(vs, vt); }
  }
}
