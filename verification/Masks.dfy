/** The masks and shifts with which the interpreter picks words apart, and what they amount to. */
module Masks {
  import opened Word
  import opened MemoryImage
  import Isa

  /** `w & 0x80000000` is set exactly when the signed reading is negative. */
  predicate Negative(w: Word): (b: bool)
    ensures b == (Signed(w) < 0)
  {
    PowersOfTwo();
    FieldMask(w, 31, 1, 0x8000_0000, 2, 0x8000_0000);
    AndW(w, 0x8000_0000) != 0
  }

  /** A sum overflows when its operands have one sign and the wrapped result the other. */
  lemma SumOverflows(a: Word, b: Word)
    ensures (Signed(a) < 0) == (Signed(b) < 0) != (Signed(Wrap(a + b)) < 0) <==>
            !(-0x8000_0000 <= Signed(a) + Signed(b) < 0x8000_0000)
    ensures Wrap(a + b) == Wrap(Signed(a) + Signed(b))
  {
  }

  lemma DifferenceOverflows(a: Word, b: Word)
    ensures (Signed(a) < 0) != (Signed(b) < 0) && (Signed(a) < 0) != (Signed(Wrap(a - b)) < 0) <==>
            !(-0x8000_0000 <= Signed(a) - Signed(b) < 0x8000_0000)
    ensures Wrap(a - b) == Wrap(Signed(a) - Signed(b))
  {
  }

  // ---------- Masks that the interpreter uses ----------

  lemma SetBit(x: Word, k: nat, d: nat)
    requires d == Pow2(k) && d <= 0x8000_0000
    ensures OrW(x, d) == if x / d % 2 == 1 then x else x + d
  {
    PowersOfTwo();
    FieldMask(x, k, 1, d, 2, d);
    AndWIs(x, d);
    OrWIs(x, d);
  }

  lemma ExlMask(status: Word)
    ensures (AndW(status, 2) == 0) == !Isa.Exl(status)
    ensures OrW(status, 2) == if Isa.Exl(status) then status else status + 2
    ensures AndW(status, Not(2)) == if Isa.Exl(status) then status - 2 else status
  {
    assert Pow2(1) == 2;
    FieldMask(status, 1, 1, 2, 2, 2);
    SetBit(status, 1, 2);
  }

  lemma CodeMask(cause: Word, code: Reg)
    ensures OrW(AndW(cause, Not(0x7c)), code * 4) == Isa.SetCode(cause, code)
  {
    PowersOfTwo();
    FieldMask(cause, 2, 5, 4, 32, 0x7c);
    var x := AndW(cause, Not(0x7c));
    var q := cause / 4 / 32;
    assert x == q * 128 + cause % 4;
    OrFillsField(x, code, 2, 5);
    OrWIs(x, code * 4);
  }

  /** `pc & 0xf0000000`. */
  lemma RegionMask(pc: Word)
    ensures AndW(pc, 0xf000_0000) == pc - pc % 0x1000_0000
  {
    assert Pow2(28) == 0x1000_0000 by { PowersOfTwo(); assert Pow2(27) == 2 * Pow2(26); }
    assert Pow2(4) == 16;
    FieldMask(pc, 28, 4, 0x1000_0000, 16, 0xf000_0000);
  }

  /** `w & 0x1f`. */
  lemma LowFive(w: Word)
    ensures AndW(w, 0x1f) == w % 32
  {
    PowersOfTwo();
    FieldMask(w, 0, 5, 1, 32, 0x1f);
  }

  lemma SignedImm(imm: Int16)
    ensures Signed(Wrap(imm)) == imm
  {
  }

  /** `imm << 16 & 0xffff0000` for a signed imm. */
  lemma LuiValue(imm: Int16)
    ensures AndW(Wrap(imm * 0x1_0000), 0xffff_0000) == Wrap(imm % 0x1_0000 * 0x1_0000)
  {
    ModUnique(imm * 0x1_0000, 0x1_0000_0000, imm / 0x1_0000, imm % 0x1_0000 * 0x1_0000);
    ByteMasks(imm % 0x1_0000 * 0x1_0000);
  }

  // ---------- Text read and written as data ----------

  lemma QuotientBound(w: int, p: int, q: int)
    requires p > 0 && w >= 0 && q == w / p
    ensures 0 <= q <= w
  {
    if q > w { MulMonotone(1, p, q); }
  }

  lemma ShiftDivides(w: Word, n: nat, p: nat)
    requires p == Pow2(n)
    ensures Isa.ShiftRight(w, n) == w / p
  {
    QuotientBound(w, p, w / p);
  }

  lemma ShiftedBytes(w: Word)
    ensures Isa.ShiftRight(w, 0) == w && Isa.ShiftRight(w, 8) == w / 0x100
    ensures Isa.ShiftRight(w, 16) == w / 0x1_0000 && Isa.ShiftRight(w, 24) == w / 0x100_0000
  {
    PowersOfTwo();
    assert Pow2(0) == 1;
    ShiftDivides(w, 0, 1);
    ShiftDivides(w, 8, 0x100);
    ShiftDivides(w, 16, 0x1_0000);
    ShiftDivides(w, 24, 0x100_0000);
  }

  /** `word >> 8 * k & 0xff`. */
  lemma ShiftedByte(w: Word, k: nat)
    requires k < 4
    ensures AndW(Isa.ShiftRight(w, 8 * k), 0xff) == Isa.ByteOf(w, k)
  {
    ShiftedBytes(w);
    ByteMasks(Isa.ShiftRight(w, 8 * k));
  }

  /** `word >> 8 * k & 0xffff`. */
  lemma ShiftedHalf(w: Word, k: nat)
    requires k == 0 || k == 2
    ensures AndW(Isa.ShiftRight(w, 8 * k), 0xffff) == Isa.Field(w, k, Isa.Half2)
  {
    ShiftedBytes(w);
    ByteMasks(Isa.ShiftRight(w, 8 * k));
  }

  /** `word & ~m | v`, where mask m is the field of n digits at place d, and v lies in the field. */
  lemma FieldStored(w: Word, k: nat, n: nat, d: nat, e: nat, m: Word, f: nat, v: Word)
    requires d > 0 && e > 0 && d == Pow2(k) && e == Pow2(n) && m == (e - 1) * d && f < e && v == f * d
    ensures OrW(AndW(w, Not(m)), v) == w - w / d % e * d + v
  {
    FieldMask(w, k, n, d, e, m);
    var x := AndW(w, Not(m));
    ClearedField(w, d, e, x);
    OrFillsField(x, f, k, n);
    OrWIs(x, v);
  }

  lemma ClearedField(w: Word, d: nat, e: nat, x: Word)
    requires d > 0 && e > 0 && x == w - w / d % e * d
    ensures x / d % e == 0
  {
    var q, r := w / d, w % d;
    DivMod(w, d);
    assert x == (q - q % e) * d + r;
    ModUnique(x, d, q - q % e, r);
    DivMod(q, e);
    ModUnique(q - q % e, e, q / e, 0);
  }

  lemma ShiftMultiplies(f: Word, n: nat, p: nat)
    requires p == Pow2(n) && f * p < 0x1_0000_0000
    ensures Isa.ShiftLeft(f, n) == f * p
  {
  }

  /** The byte at place d becomes the low byte of v. */
  lemma ByteStoredAt(w: Word, k: nat, v: Word, d: nat, m: Word, b: Word)
    requires d > 0 && d == Pow2(8 * k) && m == 0xff * d && b == v % 0x100 * d
    ensures OrW(AndW(w, Not(Isa.ShiftLeft(0xff, 8 * k))), Isa.ShiftLeft(AndW(v, 0xff), 8 * k)) == w - w / d % 0x100 * d + b
  {
    PowersOfTwo();
    ByteMasks(v);
    FieldStored(w, 8 * k, 8, d, 0x100, m, v % 0x100, b);
    ShiftMultiplies(0xff, 8 * k, d);
    ShiftMultiplies(v % 0x100, 8 * k, d);
  }

  function StoredByte(w: Word, k: nat, v: Word): Word
    requires k < 4
  { OrW(AndW(w, Not(Isa.ShiftLeft(0xff, 8 * k))), Isa.ShiftLeft(AndW(v, 0xff), 8 * k)) }

  lemma ByteStored0(w: Word, v: Word)
    ensures StoredByte(w, 0, v) == Isa.SetField(w, 0, Isa.Byte1, v)
  {
    assert Pow2(0) == 1 by { PowersOfTwo(); }
    ByteStoredAt(w, 0, v, 1, 0xff, v % 0x100 * 1);
    BytesJoin(w);
  }

  lemma ByteStored1(w: Word, v: Word)
    ensures StoredByte(w, 1, v) == Isa.SetField(w, 1, Isa.Byte1, v)
  {
    assert Pow2(8) == 0x100 by { PowersOfTwo(); }
    ByteStoredAt(w, 1, v, 0x100, 0xff00, v % 0x100 * 0x100);
    BytesJoin(w);
  }

  lemma ByteStored2(w: Word, v: Word)
    ensures StoredByte(w, 2, v) == Isa.SetField(w, 2, Isa.Byte1, v)
  {
    assert Pow2(16) == 0x1_0000 by { PowersOfTwo(); }
    ByteStoredAt(w, 2, v, 0x1_0000, 0xff_0000, v % 0x100 * 0x1_0000);
    BytesJoin(w);
  }

  lemma ByteStored3(w: Word, v: Word)
    ensures StoredByte(w, 3, v) == Isa.SetField(w, 3, Isa.Byte1, v)
  {
    assert Pow2(24) == 0x100_0000 by { PowersOfTwo(); }
    ByteStoredAt(w, 3, v, 0x100_0000, 0xff00_0000, v % 0x100 * 0x100_0000);
    BytesJoin(w);
  }

  /** Storing a byte into a text word. */
  lemma ByteStored(w: Word, k: nat, v: Word)
    requires k < 4
    ensures StoredByte(w, k, v) == Isa.SetField(w, k, Isa.Byte1, v)
  {
    if k == 0 { ByteStored0(w, v); }
    else if k == 1 { ByteStored1(w, v); }
    else if k == 2 { ByteStored2(w, v); }
    else { ByteStored3(w, v); }
  }

  lemma HalfStoredAt(w: Word, k: nat, v: Word, d: nat, m: Word, b: Word)
    requires d > 0 && d == Pow2(8 * k) && m == 0xffff * d && b == v % 0x1_0000 * d
    ensures OrW(AndW(w, Not(Isa.ShiftLeft(0xffff, 8 * k))), Isa.ShiftLeft(AndW(v, 0xffff), 8 * k)) == w - w / d % 0x1_0000 * d + b
  {
    PowersOfTwo();
    ByteMasks(v);
    FieldStored(w, 8 * k, 16, d, 0x1_0000, m, v % 0x1_0000, b);
    ShiftMultiplies(0xffff, 8 * k, d);
    ShiftMultiplies(v % 0x1_0000, 8 * k, d);
  }

  function StoredHalf(w: Word, k: nat, v: Word): Word
    requires k == 0 || k == 2
  { OrW(AndW(w, Not(Isa.ShiftLeft(0xffff, 8 * k))), Isa.ShiftLeft(AndW(v, 0xffff), 8 * k)) }

  lemma HalfStored0(w: Word, v: Word)
    ensures StoredHalf(w, 0, v) == Isa.SetField(w, 0, Isa.Half2, v)
  {
    assert Pow2(0) == 1;
    HalfStoredAt(w, 0, v, 1, 0xffff, v % 0x1_0000);
    BytesJoin(w);
    BytesJoin(v);
  }

  lemma HalfStored2(w: Word, v: Word)
    ensures StoredHalf(w, 2, v) == Isa.SetField(w, 2, Isa.Half2, v)
  {
    hide Isa.SetField, Isa.ShiftLeft;
    assert Pow2(16) == 0x1_0000 by { PowersOfTwo(); }
    HalfStoredAt(w, 2, v, 0x1_0000, 0xffff_0000, v % 0x1_0000 * 0x1_0000);
    UpperHalfSet(w, v);
  }

  lemma UpperHalfSet(w: Word, v: Word)
    ensures Isa.SetField(w, 2, Isa.Half2, v) == w - w / 0x1_0000 % 0x1_0000 * 0x1_0000 + v % 0x1_0000 * 0x1_0000
  {
    BytesJoin(w);
    BytesJoin(v);
  }

  /** Storing a half into a text word. */
  lemma HalfStored(w: Word, k: nat, v: Word)
    requires k == 0 || k == 2
    ensures StoredHalf(w, k, v) == Isa.SetField(w, k, Isa.Half2, v)
  {
    if k == 0 { HalfStored0(w, v); } else { HalfStored2(w, v); }
  }

  // ---------- Unaligned accesses ----------

  /** `hi << n | lo` for fields that lie next to each other. */
  lemma Joined(hi: Word, lo: Word, n: nat, p: nat)
    requires p == Pow2(n) && lo < p && hi * p < 0x1_0000_0000 && hi * p + lo < 0x1_0000_0000
    ensures OrW(Isa.ShiftLeft(hi, n), lo) == hi * p + lo == OrW(lo, Isa.ShiftLeft(hi, n))
  {
    ShiftMultiplies(hi, n, p);
    OrJoins(hi, lo, n, p);
  }

  /** An arithmetic shift has the same low digits as a logical one. */
  lemma ArithDigits(reg: Word, n: nat, p: nat, e: nat)
    requires p == Pow2(n) && e > 0 && p * e == 0x1_0000_0000
    ensures Isa.ShiftArith(reg, n) % e == reg / p
  {
    var q, r := reg / p, reg % p;
    DivMod(reg, p);
    if q >= e { MulMonotone(e, q, p); }
    ModUnique(q, e, 0, q);
    QuotientBound(reg, p, q);
    if Signed(reg) < 0 {
      NegativeQuotient(Signed(reg), q, r, p, e);
      WrappedDigits(q, p, e);
    } else {
      assert Isa.ShiftArith(reg, n) == q;
    }
  }

  lemma NegativeQuotient(x: int, q: int, r: int, p: nat, e: nat)
    requires x + p * e == q * p + r && 0 <= r < p
    ensures x / p == q - e
  {
    assert x == (q - e) * p + r;
    ModUnique(x, p, q - e, r);
  }

  lemma WrappedDigits(q: int, p: nat, e: nat)
    requires e > 0 && p * e == 0x1_0000_0000
    ensures Wrap(q - e) % e == q % e
  {
    var k := (q - e) / 0x1_0000_0000;
    assert Wrap(q - e) == q - e - k * (p * e);
    assert q - e - k * (p * e) == (q / e - 1 - k * p) * e + q % e;
    ModUnique(q - e - k * (p * e), e, q / e - 1 - k * p, q % e);
  }

  // `reg >> n & (1 << 32 - n) - 1` for a signed reg.

  lemma HighByte(reg: Word)
    ensures AndW(Isa.ShiftArith(reg, 24), 0xff) == reg / 0x100_0000
  {
    PowersOfTwo();
    ArithDigits(reg, 24, 0x100_0000, 0x100);
    ByteMasks(Isa.ShiftArith(reg, 24));
  }

  lemma HighHalf(reg: Word)
    ensures AndW(Isa.ShiftArith(reg, 16), 0xffff) == reg / 0x1_0000
  {
    PowersOfTwo();
    ArithDigits(reg, 16, 0x1_0000, 0x1_0000);
    ByteMasks(Isa.ShiftArith(reg, 16));
  }

  lemma HighBytes3(reg: Word)
    ensures AndW(Isa.ShiftArith(reg, 8), 0xff_ffff) == reg / 0x100
  {
    PowersOfTwo();
    ArithDigits(reg, 8, 0x100, 0x100_0000);
    ByteMasks(Isa.ShiftArith(reg, 8));
  }

  lemma LeftDigits(reg: Word, n: nat, p: nat, e: nat)
    requires p == Pow2(n) && e > 0 && p * e == 0x1_0000_0000
    ensures reg % e * p < 0x1_0000_0000 && Isa.ShiftLeft(reg, n) == reg % e * p
    ensures reg % e * p % p == 0
  {
    var q, r := reg / e, reg % e;
    DivMod(reg, e);
    MulMonotone(r + 1, e, p);
    assert reg * p == q * 0x1_0000_0000 + r * p;
    ModUnique(reg * p, 0x1_0000_0000, q, r * p);
    ModUnique(r * p, p, r, 0);
  }

  /** `reg << n & ~((1 << n) - 1)`. */
  lemma LowBytesOf(reg: Word)
    ensures AndW(Isa.ShiftLeft(reg, 8), 0xffff_ff00) == reg % 0x100_0000 * 0x100
    ensures AndW(Isa.ShiftLeft(reg, 16), 0xffff_0000) == reg % 0x1_0000 * 0x1_0000
    ensures AndW(Isa.ShiftLeft(reg, 24), 0xff00_0000) == reg % 0x100 * 0x100_0000
  {
    PowersOfTwo();
    LeftDigits(reg, 8, 0x100, 0x100_0000);
    LeftDigits(reg, 16, 0x1_0000, 0x1_0000);
    LeftDigits(reg, 24, 0x100_0000, 0x100);
    ByteMasks(Isa.ShiftLeft(reg, 8));
    ByteMasks(Isa.ShiftLeft(reg, 16));
    ByteMasks(Isa.ShiftLeft(reg, 24));
  }

  function LoadLeft(word: Word, reg: Word, byte: nat): (r: Word)
    requires byte < 4
    ensures r == Isa.MergeLeft(word, reg, byte)
  {
    PowersOfTwo();
    ByteMasks(word);
    ByteMasks(reg);
    if byte == 0 then
      Joined(word % 0x100, reg % 0x100_0000, 24, 0x100_0000);
      OrW(Isa.ShiftLeft(AndW(word, 0xff), 24), AndW(reg, 0xff_ffff))
    else if byte == 1 then
      Joined(word % 0x1_0000, reg % 0x1_0000, 16, 0x1_0000);
      OrW(Isa.ShiftLeft(AndW(word, 0xffff), 16), AndW(reg, 0xffff))
    else if byte == 2 then
      Joined(word % 0x100_0000, reg % 0x100, 8, 0x100);
      OrW(Isa.ShiftLeft(AndW(word, 0xff_ffff), 8), AndW(reg, 0xff))
    else word
  }

  lemma HighPart(w: Word)
    ensures Isa.ShiftRight(AndW(w, 0xffff_ff00), 8) == w / 0x100
    ensures Isa.ShiftRight(AndW(w, 0xffff_0000), 16) == w / 0x1_0000
    ensures Isa.ShiftRight(AndW(w, 0xff00_0000), 24) == w / 0x100_0000
  {
    ByteMasks(w);
    ShiftedBytes(w - w % 0x100);
    ShiftedBytes(w - w % 0x1_0000);
    ShiftedBytes(w - w % 0x100_0000);
  }

  function LoadRight(word: Word, reg: Word, byte: nat): (r: Word)
    requires byte < 4
    ensures r == Isa.MergeRight(word, reg, byte)
  {
    PowersOfTwo();
    HighPart(word);
    ByteMasks(reg);
    if byte == 0 then word
    else if byte == 1 then
      OrJoins(reg / 0x100_0000, word / 0x100, 24, 0x100_0000);
      OrW(AndW(reg, 0xff00_0000), Isa.ShiftRight(AndW(word, 0xffff_ff00), 8))
    else if byte == 2 then
      OrJoins(reg / 0x1_0000, word / 0x1_0000, 16, 0x1_0000);
      OrW(AndW(reg, 0xffff_0000), Isa.ShiftRight(AndW(word, 0xffff_0000), 16))
    else
      OrJoins(reg / 0x100, word / 0x100_0000, 8, 0x100);
      OrW(AndW(reg, 0xffff_ff00), Isa.ShiftRight(AndW(word, 0xff00_0000), 24))
  }

  function StoreLeft(data: Word, reg: Word, byte: nat): (r: Word)
    requires byte < 4
    ensures r == Isa.StoreLeft(data, reg, byte)
  {
    PowersOfTwo();
    ByteMasks(data);
    if byte == 0 then
      HighByte(reg);
      OrJoins(data / 0x100, reg / 0x100_0000, 8, 0x100);
      OrW(AndW(data, 0xffff_ff00), AndW(Isa.ShiftArith(reg, 24), 0xff))
    else if byte == 1 then
      HighHalf(reg);
      OrJoins(data / 0x1_0000, reg / 0x1_0000, 16, 0x1_0000);
      OrW(AndW(data, 0xffff_0000), AndW(Isa.ShiftArith(reg, 16), 0xffff))
    else if byte == 2 then
      HighBytes3(reg);
      OrJoins(data / 0x100_0000, reg / 0x100, 24, 0x100_0000);
      OrW(AndW(data, 0xff00_0000), AndW(Isa.ShiftArith(reg, 8), 0xff_ffff))
    else reg
  }

  function StoreRight(data: Word, reg: Word, byte: nat): (r: Word)
    requires byte < 4
    ensures r == Isa.StoreRight(data, reg, byte)
  {
    PowersOfTwo();
    LowBytesOf(reg);
    ByteMasks(data);
    if byte == 0 then reg
    else if byte == 1 then
      OrJoins(reg % 0x100_0000, data % 0x100, 8, 0x100);
      OrW(AndW(Isa.ShiftLeft(reg, 8), 0xffff_ff00), AndW(data, 0xff))
    else if byte == 2 then
      OrJoins(reg % 0x1_0000, data % 0x1_0000, 16, 0x1_0000);
      OrW(AndW(Isa.ShiftLeft(reg, 16), 0xffff_0000), AndW(data, 0xffff))
    else
      OrJoins(reg % 0x100, data % 0x100_0000, 24, 0x100_0000);
      OrW(AndW(Isa.ShiftLeft(reg, 24), 0xff00_0000), AndW(data, 0xff_ffff))
  }
}
