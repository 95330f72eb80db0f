/** 32-bit words as natural numbers below 2^32, their signed reading, and the bitwise operators.

    C's unsigned arithmetic is arithmetic modulo 2^32 (`Wrap`); a signed value is the
    two's-complement reading of the same word (`Signed`).  The bitwise operators are defined
    digit by digit, so that the facts used about masks and disjoint fields are proved here
    rather than assumed. */
module Word {

  type Word = x: int | 0 <= x < 0x1_0000_0000 witness 0
  type Byte = x: int | 0 <= x < 256 witness 0
  type Int32 = x: int | -0x8000_0000 <= x < 0x8000_0000 witness 0
  type Int16 = x: int | -0x8000 <= x < 0x8000 witness 0
  type Reg = x: int | 0 <= x < 32 witness 0

  function Wrap(x: int): Word { x % 0x1_0000_0000 }

  function Abs(x: int): nat { if x < 0 then -x else x }

  function Signed(w: Word): Int32 { if w < 0x8000_0000 then w else w - 0x1_0000_0000 }

  /** The 16-bit two's-complement reading of the low half of x. */
  function S16(x: int): Int16 { if x % 0x1_0000 < 0x8000 then x % 0x1_0000 else x % 0x1_0000 - 0x1_0000 }

  function Lo16(w: int): (r: int)
    ensures 0 <= r < 0x1_0000
  { w % 0x1_0000 }

  function Hi16(w: Word): (r: int)
    ensures 0 <= r < 0x1_0000
    ensures w == r * 0x1_0000 + Lo16(w)
  { w / 0x1_0000 }

  lemma WrapSigned(w: Word)
    ensures Wrap(Signed(w)) == w
  {
  }

  function Pow2(n: nat): (r: nat)
    ensures r > 0
  { if n == 0 then 1 else 2 * Pow2(n - 1) }

  // ---------- Bitwise operators ----------

  function And(a: nat, b: nat): (r: nat)
    ensures r <= a && r <= b
  {
    if a == 0 || b == 0 then 0
    else 2 * And(a / 2, b / 2) + if a % 2 == 1 && b % 2 == 1 then 1 else 0
  }

  function Or(a: nat, b: nat): (r: nat)
    ensures a <= r && b <= r
  { a + b - And(a, b) }

  function Xor(a: nat, b: nat): nat { a + b - 2 * And(a, b) }

  function Not(a: Word): Word { 0x1_0000_0000 - 1 - a }

  lemma {:induction false} OrBounded(a: nat, b: nat, n: nat)
    requires a < Pow2(n) && b < Pow2(n)
    ensures Or(a, b) < Pow2(n)
  {
    if n > 0 && a > 0 && b > 0 {
      OrBounded(a / 2, b / 2, n - 1);
    }
  }

  lemma {:induction false} AndOfHalves(a: nat, b: nat, x: nat, y: nat, p: nat, q: nat)
    requires a == 2 * x + p && b == 2 * y + q && p < 2 && q < 2
    ensures And(a, b) == 2 * And(x, y) + (if p == 1 && q == 1 then 1 else 0)
  {
    assert a / 2 == x && b / 2 == y && a % 2 == p && b % 2 == q;
    if a == 0 || b == 0 {
      assert And(x, y) == 0;
    }
  }

  /** a << k, without a bound on the result. */
  function Shl(a: nat, k: nat): nat { if k == 0 then a else 2 * Shl(a, k - 1) }

  lemma {:induction false} ShlIsMul(a: nat, k: nat)
    ensures Shl(a, k) == a * Pow2(k)
  {
    if k > 0 {
      ShlIsMul(a, k - 1);
      MulTwice(a, Pow2(k - 1));
    }
  }

  lemma MulTwice(a: int, h: int)
    ensures a * (2 * h) == 2 * (a * h)
  {
  }

  /** `&` works on the digits above and below boundary k separately. */
  predicate SplitsAt(a: nat, b: nat, f: nat, g: nat, k: nat, c: nat) {
    And(Shl(a, k) + f, Shl(b, k) + g) == Shl(c, k) + And(f, g)
  }

  lemma {:induction false} AndSplit(a: nat, b: nat, f: nat, g: nat, k: nat, c: nat)
    requires f < Pow2(k) && g < Pow2(k) && c == And(a, b)
    ensures SplitsAt(a, b, f, g, k, c)
  {
    if k == 0 {
      AndZero(0);
    } else {
      AndSplit(a, b, f / 2, g / 2, k - 1, c);
      AndSplitStep(a, b, f, g, k, c);
    }
  }

  lemma {:induction false} AndSplitStep(a: nat, b: nat, f: nat, g: nat, k: nat, c: nat)
    requires k > 0 && SplitsAt(a, b, f / 2, g / 2, k - 1, c)
    ensures SplitsAt(a, b, f, g, k, c)
  {
    AndDoubled(Shl(a, k) + f, Shl(b, k) + g, Shl(a, k - 1), Shl(b, k - 1), Shl(c, k - 1), f, g);
  }

  lemma {:induction false} AndDoubled(a: nat, b: nat, u: nat, v: nat, c: nat, f: nat, g: nat)
    requires a == 2 * u + f && b == 2 * v + g
    requires And(u + f / 2, v + g / 2) == c + And(f / 2, g / 2)
    ensures And(a, b) == 2 * c + And(f, g)
  {
    AndOfHalves(f, g, f / 2, g / 2, f % 2, g % 2);
    AndOfHalves(a, b, u + f / 2, v + g / 2, f % 2, g % 2);
  }

  lemma PowersOfTwo()
    ensures Pow2(2) == 4 && Pow2(5) == 32 && Pow2(6) == 64 && Pow2(8) == 256 && Pow2(10) == 0x400
    ensures Pow2(11) == 0x800 && Pow2(16) == 0x1_0000 && Pow2(21) == 0x20_0000
    ensures Pow2(24) == 0x100_0000 && Pow2(26) == 0x400_0000 && Pow2(31) == 0x8000_0000 && Pow2(32) == 0x1_0000_0000
  {
    assert Pow2(5) == 32;
    assert Pow2(8) == 256;
    assert Pow2(11) == 0x800;
    assert Pow2(16) == 0x1_0000;
    assert Pow2(21) == 0x20_0000;
    assert Pow2(26) == 0x400_0000;
  }

  lemma {:induction false} AndZero(a: nat)
    ensures And(a, 0) == 0 && And(0, a) == 0
  {
  }

  /** Two numbers that live in disjoint digit ranges: `|` is `+`. */
  lemma {:induction false} OrDisjoint(hi: nat, lo: nat, k: nat)
    requires lo < Pow2(k)
    ensures And(Shl(hi, k), lo) == 0 == And(lo, Shl(hi, k))
    ensures Or(Shl(hi, k), lo) == Shl(hi, k) + lo == Or(lo, Shl(hi, k))
  {
    AndZero(hi);
    AndZero(lo);
    AndSplit(hi, 0, 0, lo, k, 0);
    AndSplit(0, hi, lo, 0, k, 0);
    ShlIsMul(0, k);
  }

  /** Or-ing n digits into a place where they are all zero adds them. */
  lemma {:induction false} OrFillsField(x: nat, f: nat, k: nat, n: nat)
    requires f < Pow2(n) && x / Pow2(k) % Pow2(n) == 0
    ensures Or(x, f * Pow2(k)) == x + f * Pow2(k)
  {
    var y, l := x / Pow2(k), x % Pow2(k);
    DivMod(x, Pow2(k));
    DivMod(y, Pow2(n));
    ShlIsMul(f, k);
    ShlIsMul(y, k);
    ShlIsMul(y / Pow2(n), n);
    OrDisjoint(y / Pow2(n), f, n);
    AndZero(l);
    AndSplit(y, f, l, 0, k, 0);
    ShlIsMul(0, k);
    assert SplitsAt(y, f, l, 0, k, 0);
  }

  /** Masking with 2^k - 1 keeps the low k digits. */
  lemma {:induction false} AndLowMask(x: nat, k: nat)
    ensures And(x, Pow2(k) - 1) == x % Pow2(k)
  {
    if k > 0 {
      AndLowMask(x / 2, k - 1);
      AndOfHalves(x, Pow2(k) - 1, x / 2, Pow2(k - 1) - 1, x % 2, 1);
      ModDouble(x, Pow2(k - 1));
    }
  }

  lemma ModDouble(x: nat, h: nat)
    requires h > 0
    ensures x % (2 * h) == 2 * ((x / 2) % h) + x % 2
  {
    var q, r := (x / 2) / h, (x / 2) % h;
    assert x / 2 == q * h + r;
    assert x == q * (2 * h) + (2 * r + x % 2);
    ModUnique(x, 2 * h, q, 2 * r + x % 2);
  }

  lemma DivMod(x: int, d: int)
    requires d > 0
    ensures x == x / d * d + x % d && 0 <= x % d < d
  {
  }

  lemma ModUnique(x: int, d: int, q: int, r: int)
    requires d > 0 && 0 <= r < d && x == q * d + r
    ensures x / d == q && x % d == r
  {
    var q', r' := x / d, x % d;
    assert x == q' * d + r';
    MulDiffers(q, q', d);
  }

  lemma MulDiffers(q: int, q': int, d: int)
    requires d > 0
    ensures q > q' ==> q * d >= q' * d + d
    ensures q < q' ==> q' * d >= q * d + d
  {
    if q > q' {
      MulMonotone(q' + 1, q, d);
    } else if q < q' {
      MulMonotone(q + 1, q', d);
    }
  }

  lemma MulMonotone(x: int, y: int, d: int)
    requires x <= y && d > 0
    ensures x * d <= y * d
  {
  }

  lemma SameWrap(x: int, y: int, k: int)
    requires x == y + k * 0x1_0000_0000
    ensures Wrap(x) == Wrap(y)
  {
    ModUnique(x, 0x1_0000_0000, y / 0x1_0000_0000 + k, Wrap(y));
  }

  lemma WrapParts(x: int)
    ensures Wrap(x) == x - x / 0x1_0000_0000 * 0x1_0000_0000
  {
  }

  // ---------- The operators on words ----------

  function Bit(w: nat, i: nat): bool { if i == 0 then w % 2 == 1 else Bit(w / 2, i - 1) }

  lemma {:induction false} SameBits(a: nat, b: nat, n: nat)
    requires a < Pow2(n) && b < Pow2(n)
    requires forall i: nat | i < n :: Bit(a, i) == Bit(b, i)
    ensures a == b
  {
    if n > 0 {
      assert Bit(a, 0) == Bit(b, 0);
      forall i: nat | i < n - 1 ensures Bit(a / 2, i) == Bit(b / 2, i) {
        assert Bit(a, i + 1) == Bit(b, i + 1);
      }
      SameBits(a / 2, b / 2, n - 1);
    }
  }

  lemma {:induction false} AndBits(a: nat, b: nat, i: nat)
    ensures Bit(And(a, b), i) == (Bit(a, i) && Bit(b, i))
    decreases i
  {
    AndOfHalves(a, b, a / 2, b / 2, a % 2, b % 2);
    if i > 0 { AndBits(a / 2, b / 2, i - 1); }
  }

  lemma {:induction false} OrBits(a: nat, b: nat, i: nat)
    ensures Bit(Or(a, b), i) == (Bit(a, i) || Bit(b, i))
    decreases i
  {
    AndOfHalves(a, b, a / 2, b / 2, a % 2, b % 2);
    OrOfHalves(a, b);
    if i > 0 { OrBits(a / 2, b / 2, i - 1); }
  }

  lemma OrOfHalves(a: nat, b: nat)
    ensures Or(a, b) / 2 == Or(a / 2, b / 2)
    ensures Or(a, b) % 2 == if a % 2 == 1 || b % 2 == 1 then 1 else 0
  {
    AndOfHalves(a, b, a / 2, b / 2, a % 2, b % 2);
  }

  lemma {:induction false} XorBits(a: nat, b: nat, i: nat)
    ensures Bit(Xor(a, b), i) == (Bit(a, i) != Bit(b, i))
    decreases i
  {
    XorOfHalves(a, b);
    if i > 0 { XorBits(a / 2, b / 2, i - 1); }
  }

  lemma XorOfHalves(a: nat, b: nat)
    ensures Xor(a, b) / 2 == Xor(a / 2, b / 2)
    ensures Xor(a, b) % 2 == if a % 2 == b % 2 then 0 else 1
  {
    AndOfHalves(a, b, a / 2, b / 2, a % 2, b % 2);
  }

  predicate IsAnd(a: Word, b: Word, r: Word) {
    forall i: nat | i < 32 :: Bit(r, i) == (Bit(a, i) && Bit(b, i))
  }

  predicate IsOr(a: Word, b: Word, r: Word) {
    forall i: nat | i < 32 :: Bit(r, i) == (Bit(a, i) || Bit(b, i))
  }

  predicate IsXor(a: Word, b: Word, r: Word) {
    forall i: nat | i < 32 :: Bit(r, i) == (Bit(a, i) != Bit(b, i))
  }

  /** The digits determine the word, and the arithmetic definitions have them. */
  lemma AndDefined(a: Word, b: Word)
    ensures forall r: Word :: IsAnd(a, b, r) <==> r == And(a, b)
  {
    PowersOfTwo();
    forall i: nat { AndBits(a, b, i); }
    forall r: Word | IsAnd(a, b, r) ensures r == And(a, b) { SameBits(r, And(a, b), 32); }
  }

  lemma OrDefined(a: Word, b: Word)
    ensures Or(a, b) < 0x1_0000_0000 && forall r: Word :: IsOr(a, b, r) <==> r == Or(a, b)
  {
    PowersOfTwo();
    OrBounded(a, b, 32);
    forall i: nat { OrBits(a, b, i); }
    forall r: Word | IsOr(a, b, r) ensures r == Or(a, b) { SameBits(r, Or(a, b), 32); }
  }

  lemma XorDefined(a: Word, b: Word)
    ensures Xor(a, b) < 0x1_0000_0000 && forall r: Word :: IsXor(a, b, r) <==> r == Xor(a, b)
  {
    PowersOfTwo();
    OrBounded(a, b, 32);
    forall i: nat { XorBits(a, b, i); }
    forall r: Word | IsXor(a, b, r) ensures r == Xor(a, b) { SameBits(r, Xor(a, b), 32); }
  }

  function AndW(a: Word, b: Word): Word {
    AndDefined(a, b);
    assert IsAnd(a, b, And(a, b));
    var r: Word :| IsAnd(a, b, r);
    r
  }

  function OrW(a: Word, b: Word): Word {
    OrDefined(a, b);
    assert IsOr(a, b, Or(a, b));
    var r: Word :| IsOr(a, b, r);
    r
  }

  function XorW(a: Word, b: Word): Word {
    XorDefined(a, b);
    assert IsXor(a, b, Xor(a, b));
    var r: Word :| IsXor(a, b, r);
    r
  }

  lemma AndWIs(a: Word, b: Word)
    ensures AndW(a, b) == And(a, b)
  {
    AndDefined(a, b);
  }

  lemma OrWIs(a: Word, b: Word)
    ensures OrW(a, b) == Or(a, b)
  {
    OrDefined(a, b);
  }

  // ---------- Masks ----------

  /** Masking with n ones at place k keeps that field. */
  lemma {:induction false} AndField(x: nat, k: nat, n: nat, d: nat, e: nat, m: nat)
    requires d > 0 && e > 0 && d == Pow2(k) && e == Pow2(n) && m == (e - 1) * d
    ensures And(x, m) == x / d % e * d
  {
    var y, l := x / d, x % d;
    var f := y % e;
    DivMod(x, d);
    ShlIsMul(y, k);
    ShlIsMul(e - 1, k);
    AndShifted(y, e - 1, l, k, f, n);
    ShlIsMul(f, k);
  }

  lemma {:induction false} AndShifted(y: nat, ones: nat, l: nat, k: nat, f: nat, n: nat)
    requires l < Pow2(k) && ones == Pow2(n) - 1 && f == y % Pow2(n)
    ensures And(Shl(y, k) + l, Shl(ones, k)) == Shl(f, k)
  {
    AndLowMask(y, n);
    AndZero(l);
    AndSplit(y, ones, l, 0, k, f);
  }

  lemma {:induction false} AndComplement(x: nat, m: nat, n: nat)
    requires x < Pow2(n) && m < Pow2(n)
    ensures And(x, m) + And(x, Pow2(n) - 1 - m) == x
  {
    if n > 0 {
      var c := Pow2(n) - 1 - m;
      AndComplement(x / 2, m / 2, n - 1);
      AndOfHalves(x, m, x / 2, m / 2, x % 2, m % 2);
      AndOfHalves(x, c, x / 2, Pow2(n - 1) - 1 - m / 2, x % 2, 1 - m % 2);
    }
  }

  /** `x & mask` for a field mask, and `x & ~mask`. */
  lemma FieldMask(x: Word, k: nat, n: nat, d: nat, e: nat, m: Word)
    requires d > 0 && e > 0 && d == Pow2(k) && e == Pow2(n) && m == (e - 1) * d
    ensures AndW(x, m) == x / d % e * d
    ensures AndW(x, Not(m)) == x - x / d % e * d
  {
    PowersOfTwo();
    AndField(x, k, n, d, e, m);
    AndComplement(x, m, 32);
    AndWIs(x, m);
    AndWIs(x, Not(m));
  }

  /** `hi << k | lo`. */
  lemma OrJoins(hi: nat, lo: nat, k: nat, d: nat)
    requires d == Pow2(k) && lo < d && hi * d + lo < 0x1_0000_0000
    ensures hi * d < 0x1_0000_0000 && lo < 0x1_0000_0000
    ensures OrW(hi * d, lo) == hi * d + lo == OrW(lo, hi * d)
  {
    ShlIsMul(hi, k);
    OrDisjoint(hi, lo, k);
    OrWIs(hi * d, lo);
    OrWIs(lo, hi * d);
  }

  /** The masks of whole bytes. */
  lemma ByteMasks(x: Word)
    ensures AndW(x, 0xff) == x % 0x100 && AndW(x, 0xffff_ff00) == x - x % 0x100
    ensures AndW(x, 0xffff) == x % 0x1_0000 && AndW(x, 0xffff_0000) == x - x % 0x1_0000
    ensures AndW(x, 0xff_ffff) == x % 0x100_0000 && AndW(x, 0xff00_0000) == x - x % 0x100_0000
  {
    PowersOfTwo();
    FieldMask(x, 0, 8, 1, 0x100, 0xff);
    FieldMask(x, 0, 16, 1, 0x1_0000, 0xffff);
    FieldMask(x, 0, 24, 1, 0x100_0000, 0xff_ffff);
  }
}
