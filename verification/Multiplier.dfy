/** 64-bit products and sums in the HI:LO pair, computed with 32-bit arithmetic. */
module Multiplier {
  import opened Word

  /** Grammar-school multiplication of 16-bit halves. */
  lemma Schoolbook(v1: nat, v2: nat, a: nat, b: nat, c: nat, d: nat)
    requires v1 == a * 0x1_0000 + b && v2 == c * 0x1_0000 + d
    ensures v1 * v2 == a * c * 0x1_0000_0000 + (a * d + c * b) * 0x1_0000 + b * d
  {
    assert v1 * v2 == a * 0x1_0000 * v2 + b * v2;
    assert b * v2 == b * c * 0x1_0000 + b * d;
    assert a * 0x1_0000 * v2 == a * c * 0x1_0000_0000 + a * d * 0x1_0000;
  }

  lemma ProductBound(x: nat, y: nat, n: nat)
    requires x <= n && y <= n
    ensures 0 <= x * y <= n * n
  {
    assert x * y <= x * n <= n * n;
  }

  /** A wrapped sum is smaller than an operand exactly when there is a carry. */
  lemma AddCarry(x: Word, y: Word)
    ensures Wrap(x + y) + (if Wrap(x + y) < x || Wrap(x + y) < y then 0x1_0000_0000 else 0) == x + y
  {
    if x + y >= 0x1_0000_0000 { assert Wrap(x + y) == x + y - 0x1_0000_0000; }
  }

  lemma JoinHalves(hi: nat, lo: nat)
    requires hi < 0x1_0000 && lo < 0x1_0000
    ensures OrW(lo, hi * 0x1_0000) == hi * 0x1_0000 + lo
  {
    PowersOfTwo();
    OrJoins(hi, lo, 16, 0x1_0000);
  }

  /** Adding up the four partial products with two carries loses nothing. */
  lemma PartialProducts(ac: Word, ad: Word, cb: Word, bd: Word, mid2: Word, carry: nat, p: nat)
    requires p == ac * 0x1_0000_0000 + (ad + cb) * 0x1_0000 + bd && p < 0x1_0000_0000 * 0x1_0000_0000
    requires mid2 + carry * 0x1_0000_0000 == ad + cb + Hi16(bd)
    ensures var h := ac + carry * 0x1_0000 + Hi16(mid2);
            h < 0x1_0000_0000 && h * 0x1_0000_0000 + (Lo16(mid2) * 0x1_0000 + Lo16(bd)) == p
  {
  }

  function Times(x: nat, y: nat): (p: Word)
    requires x < 0x1_0000 && y < 0x1_0000
    ensures p == x * y
  {
    ProductBound(x, y, 0xffff);
    x * y
  }

  /** The 64-bit value of a register pair. */
  function Pair(hi: Word, lo: Word): int { hi * 0x1_0000_0000 + lo }

  function Wrap64(x: int): int { x % 0x1_0000_0000_0000_0000 }

  /** HI:LO after multiplying two words, from four 32-bit products and two carries. */
  method UnsignedMultiply(v1: Word, v2: Word) returns (hi: Word, lo: Word)
    ensures Pair(hi, lo) == v1 * v2
  {
    var a, b, c, d := v1 / 0x1_0000, v1 % 0x1_0000, v2 / 0x1_0000, v2 % 0x1_0000;
    var bd, ad, cb, ac := Times(b, d), Times(a, d), Times(c, b), Times(a, c);
    Schoolbook(v1, v2, a, b, c, d);
    ProductBound(v1, v2, 0x1_0000_0000 - 1);
    hi, lo := AddPartials(bd, ad, cb, ac, v1 * v2);
  }

  method AddPartials(bd: Word, ad: Word, cb: Word, ac: Word, ghost p: nat) returns (hi: Word, lo: Word)
    requires p == ac * 0x1_0000_0000 + (ad + cb) * 0x1_0000 + bd && p < 0x1_0000_0000 * 0x1_0000_0000
    ensures Pair(hi, lo) == p
  {
    var carryMid := 0;
    AddCarry(ad, cb);
    var mid := Wrap(ad + cb);
    if mid < ad || mid < cb {
      carryMid := 1;
    }
    AddCarry(mid, Hi16(bd));
    var mid2 := Wrap(mid + Hi16(bd));
    if mid2 < mid || mid2 < Hi16(bd) {
      carryMid := carryMid + 1;
    }
    PartialProducts(ac, ad, cb, bd, mid2, carryMid, p);
    JoinHalves(Lo16(mid2), Lo16(bd));
    lo := OrW(Lo16(bd), Lo16(mid2) * 0x1_0000);
    hi := Wrap(ac + carryMid * 0x1_0000 + Hi16(mid2));
  }

  lemma NegatedPair(hi: Word, lo: Word, lo': Word, hi': Word)
    requires lo' == Wrap(Not(lo) + 1) && hi' == Wrap(Not(hi) + if lo' == 0 then 1 else 0)
    ensures Pair(hi', lo') == Wrap64(-Pair(hi, lo))
  {
    var p := Pair(hi, lo);
    if p == 0 {
    } else {
      assert 0 < p < 0x1_0000_0000_0000_0000;
      assert Wrap64(-p) == 0x1_0000_0000_0000_0000 - p by { ModUnique(-p, 0x1_0000_0000_0000_0000, -1, 0x1_0000_0000_0000_0000 - p); }
      if lo == 0 { assert lo' == 0; } else { assert lo' == 0x1_0000_0000 - lo; }
    }
  }

  lemma SmallIsItself(x: int)
    requires 0 <= x < 0x1_0000_0000_0000_0000
    ensures Wrap64(x) == x
  {
  }

  function Negate(w: Word): Word { Wrap(0x1_0000_0000 - w) }

  /** The word that stands for |w|: 0x80000000 is its own negation, and its own magnitude. */
  function Magnitude(w: Word): Word { if Signed(w) < 0 then Negate(w) else w }

  lemma MagnitudeIs(w: Word)
    ensures Magnitude(w) == Abs(Signed(w))
  {
  }

  lemma ProductSigns(x: int, y: int)
    ensures Abs(x) * Abs(y) == if (x < 0) == (y < 0) then x * y else -(x * y)
  {
  }

  /** The product p of two signed words, from the product q of their magnitudes. */
  lemma MagnitudeProduct(v1: Word, v2: Word, p: int, q: int)
    requires p == Signed(v1) * Signed(v2) && q == Magnitude(v1) * Magnitude(v2)
    ensures p == if (Signed(v1) < 0) == (Signed(v2) < 0) then q else -q
  {
    MagnitudeIs(v1);
    MagnitudeIs(v2);
    ProductSigns(Signed(v1), Signed(v2));
  }

  /** The product of the magnitudes, negated when the signs differ. */
  method SignedMultiply(v1: Word, v2: Word) returns (hi: Word, lo: Word)
    ensures Pair(hi, lo) == Wrap64(Signed(v1) * Signed(v2))
  {
    var negSign := false;
    var m1, m2 := v1, v2;
    if Signed(v1) < 0 {
      m1 := Negate(v1);
      negSign := true;
    }
    if Signed(v2) < 0 {
      m2 := Negate(v2);
      negSign := !negSign;
    }
    assert m1 == Magnitude(v1) && m2 == Magnitude(v2) && negSign == ((Signed(v1) < 0) != (Signed(v2) < 0));
    hi, lo := UnsignedMultiply(m1, m2);
    MagnitudeProduct(v1, v2, Signed(v1) * Signed(v2), Pair(hi, lo));
    hi, lo := WithSign(negSign, hi, lo, Signed(v1) * Signed(v2));
  }

  method WithSign(negSign: bool, hi: Word, lo: Word, ghost p: int) returns (h: Word, l: Word)
    requires p == if negSign then -Pair(hi, lo) else Pair(hi, lo)
    ensures Pair(h, l) == Wrap64(p)
  {
    h, l := hi, lo;
    if negSign {
      h, l := NegatePair(hi, lo);
    } else {
      SmallIsItself(Pair(hi, lo));
    }
  }

  method NegatePair(hi: Word, lo: Word) returns (h: Word, l: Word)
    ensures Pair(h, l) == Wrap64(-Pair(hi, lo))
  {
    h, l := Not(hi), Wrap(Not(lo) + 1);
    if l == 0 {
      h := Wrap(Not(hi) + 1);
    }
    NegatedPair(hi, lo, l, h);
  }

  lemma PairSum(hi: Word, lo: Word, h: Word, l: Word, carry: int)
    requires Wrap(lo + l) + carry * 0x1_0000_0000 == lo + l
    ensures Pair(Wrap(hi + carry + h), Wrap(lo + l)) == Wrap64(Pair(hi, lo) + Pair(h, l))
  {
    var q := (hi + carry + h) / 0x1_0000_0000;
    ModUnique(Pair(hi, lo) + Pair(h, l), 0x1_0000_0000_0000_0000, q, Pair(Wrap(hi + carry + h), Wrap(lo + l)));
  }

  /** Add the product h:l to hi:lo: the low words overflow exactly when their sum is smaller than
      either. */
  method Accumulate(hi: Word, lo: Word, h: Word, l: Word) returns (hi': Word, lo': Word)
    ensures Pair(hi', lo') == Wrap64(Pair(hi, lo) + Pair(h, l))
  {
    var carry := 0;
    AddCarry(lo, l);
    lo' := Wrap(lo + l);
    if lo' < l || lo' < lo {
      carry := 1;
    }
    PairSum(hi, lo, h, l, carry);
    hi' := Wrap(hi + carry + h);
  }

  lemma PairDifference(hi: Word, lo: Word, h: Word, l: Word, borrow: int)
    requires Wrap(lo - l) - borrow * 0x1_0000_0000 == lo - l
    ensures Pair(Wrap(hi - borrow - h), Wrap(lo - l)) == Wrap64(Pair(hi, lo) - Pair(h, l))
  {
    var q := (hi - borrow - h) / 0x1_0000_0000;
    ModUnique(Pair(hi, lo) - Pair(h, l), 0x1_0000_0000_0000_0000, q, Pair(Wrap(hi - borrow - h), Wrap(lo - l)));
  }

  /** Subtract the product h:l from hi:lo, borrowing when the low word is too small. */
  method Deduct(hi: Word, lo: Word, h: Word, l: Word) returns (hi': Word, lo': Word)
    ensures Pair(hi', lo') == Wrap64(Pair(hi, lo) - Pair(h, l))
  {
    var borrow := 0;
    lo' := Wrap(lo - l);
    if l > lo {
      borrow := 1;
    }
    PairDifference(hi, lo, h, l, borrow);
    hi' := Wrap(hi - borrow - h);
  }

  /** A pair is determined by its value modulo 2^64. */
  lemma PairIs(hi: Word, lo: Word, n: int)
    requires Pair(hi, lo) == Wrap64(n)
    ensures hi == Wrap64(n) / 0x1_0000_0000 && lo == n % 0x1_0000_0000
  {
    var q := n / 0x1_0000_0000_0000_0000;
    assert n == q * 0x1_0000_0000_0000_0000 + Pair(hi, lo);
    ModUnique(n, 0x1_0000_0000, q * 0x1_0000_0000 + hi, lo);
  }

  lemma Wrap64Sum(x: int, y: int)
    ensures Wrap64(x + Wrap64(y)) == Wrap64(x + y)
  {
    var q := y / 0x1_0000_0000_0000_0000;
    Periodic(x + Wrap64(y), q);
  }

  lemma Wrap64Difference(x: int, y: int)
    ensures Wrap64(x - Wrap64(y)) == Wrap64(x - y)
  {
    var q := y / 0x1_0000_0000_0000_0000;
    Periodic(x - Wrap64(y), -q);
  }

  lemma Periodic(x: int, q: int)
    ensures Wrap64(x + q * 0x1_0000_0000_0000_0000) == Wrap64(x)
  {
    var n := x / 0x1_0000_0000_0000_0000;
    ModUnique(x + q * 0x1_0000_0000_0000_0000, 0x1_0000_0000_0000_0000, n + q, Wrap64(x));
  }
}
