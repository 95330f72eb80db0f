/** Numerals: what the text of a number in base 10, 16 or 2 stands for. */
module Numerals {
  import opened Word
  import opened Expression
  import Instruction

  const LOWER := "0123456789abcdef"
  const UPPER := "0123456789ABCDEF"

  /** c is the digit d of the base. */
  predicate Shows(base: nat, c: char, d: nat) { d < base && d < 16 && (c == LOWER[d] || c == UPPER[d]) }

  predicate IsBase(base: nat) { base == 10 || base == 16 || base == 2 }

  predicate Numeral(base: nat, s: string, ds: seq<nat>) {
    |s| == |ds| && forall k | 0 <= k < |s| :: Shows(base, s[k], ds[k])
  }

  /** The number with these digits, the last one counting ones. */
  function NumberOf(base: nat, ds: seq<nat>): nat {
    if ds == [] then 0 else NumberOf(base, ds[..|ds| - 1]) * base + ds[|ds| - 1]
  }

  /** No digit of the base comes next. */
  ghost predicate Stops(base: nat, t: string) { t == "" || forall d: nat :: !Shows(base, t[0], d) }

  lemma DigitIs(base: nat, c: char, d: nat)
    requires IsBase(base)
    ensures DigitIn(base, c) == Instruction.Some(d) <==> Shows(base, c, d)
  {
  }

  lemma StopsDigits(base: nat, t: string)
    requires IsBase(base) && Stops(base, t) && t != ""
    ensures DigitIn(base, t[0]).None?
  {
    hide DigitIn, Shows;
    if DigitIn(base, t[0]).Some? { DigitIs(base, t[0], DigitIn(base, t[0]).value); }
  }

  /** The number is read up to its end if it fits in a word, and not at all otherwise. */
  lemma {:induction false} ReadsNumeral(base: nat, s: string, ds: seq<nat>, i: nat, t: string)
    requires IsBase(base) && Numeral(base, s, ds) && Stops(base, t) && i <= |s| && s != ""
    requires NumberOf(base, ds[..i]) < 0x1_0000_0000
    ensures ParseDigits(base, s[i..] + t, NumberOf(base, ds[..i]), i > 0) ==
            if NumberOf(base, ds) < 0x1_0000_0000 then Parsed(NumberOf(base, ds), t) else NoParse
    decreases |s| - i
  {
    hide DigitIn, Shows, Stops;
    var u := s[i..] + t;
    if i == |s| {
      assert u == t && ds[..i] == ds;
      if t != "" { StopsDigits(base, t); }
    } else {
      DigitIs(base, s[i], ds[i]);
      assert u[0] == s[i] && u[1..] == s[i + 1..] + t;
      assert ds[..i + 1][..i] == ds[..i] && ds[..i + 1][i] == ds[i];
      if NumberOf(base, ds[..i + 1]) < 0x1_0000_0000 {
        ReadsNumeral(base, s, ds, i + 1, t);
      } else {
        MoreDigits(base, ds, i + 1);
      }
    }
  }

  lemma {:induction false} MoreDigits(base: nat, ds: seq<nat>, i: nat)
    requires base > 0 && i <= |ds|
    ensures NumberOf(base, ds[..i]) <= NumberOf(base, ds)
    decreases |ds|
  {
    if i == |ds| {
      assert ds[..i] == ds;
    } else {
      var front := ds[..|ds| - 1];
      MoreDigits(base, front, i);
      assert front[..i] == ds[..i];
      Grows(NumberOf(base, front), base);
    }
  }

  lemma Grows(n: nat, base: nat)
    requires base > 0
    ensures n * base >= n
  {
  }

  /** A numeral behind its prefix is a constant of that value; one that does not fit is an error. */
  lemma PrefixedParses(base: nat, s: string, ds: seq<nat>, t: string, reserved: set<string>)
    requires (base == 16 || base == 2) && Numeral(base, s, ds) && s != "" && Stops(base, t)
    ensures ParsePrimary((if base == 16 then "0x" else "0b") + s + t, reserved) ==
            if NumberOf(base, ds) < 0x1_0000_0000 then Parsed(Number(NumberOf(base, ds)), t) else Thrown
  {
    hide ParseDigits, ParseLabel, NumberOf, Numeral, Stops;
    var prefix := if base == 16 then "0x" else "0b";
    var u := prefix + s + t;
    SkipsNothing(u);
    assert u[..2] == prefix && u[2..] == s + t;
    Starts(base, s, ds, t);
  }

  lemma Starts(base: nat, s: string, ds: seq<nat>, t: string)
    requires IsBase(base) && Numeral(base, s, ds) && s != "" && Stops(base, t)
    ensures ParseDigits(base, s + t, 0, false) ==
            if NumberOf(base, ds) < 0x1_0000_0000 then Parsed(NumberOf(base, ds), t) else NoParse
  {
    hide ParseDigits, Numeral, Stops;
    assert s[0..] == s && ds[..0] == [];
    ReadsNumeral(base, s, ds, 0, t);
  }

  /** Printing in base 10 gives a numeral of the number. */
  lemma {:induction false} DecimalNumeral(n: nat) returns (ds: seq<nat>)
    ensures Numeral(10, Decimal(n), ds) && NumberOf(10, ds) == n
  {
    hide Shows;
    DigitShows(n % 10);
    if n < 10 {
      ds := [n];
      assert ds[..0] == [];
    } else {
      var front := DecimalNumeral(n / 10);
      ds := front + [n % 10];
      assert ds[..|ds| - 1] == front;
    }
  }

  lemma DigitShows(d: nat)
    requires d < 10
    ensures Shows(10, Digit(d), d)
  {
  }
}
