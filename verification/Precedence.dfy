/** Texts without parentheses: which operator takes its operands first, and what the operators compute,
    in integers and in digits. */
module Precedence {
  import opened Word
  import opened Expression
  import Instruction
  import Isa
  import Division
  import Arithmetic

  // ---------- The operators ----------

  /** w is what op makes of a and b. */
  ghost predicate Combines(op: Token, a: Word, b: Word, w: Word) {
    if op.Plus? then (a + b - w) % 0x1_0000_0000 == 0
    else if op.Minus? then (a - b - w) % 0x1_0000_0000 == 0
    else if op.Times? then (a * b - w) % 0x1_0000_0000 == 0
    else if op.Divide? then Divided(Signed(a), Signed(b), Signed(w))
    else if op.BitAnd? then forall i: nat | i < 32 :: Bit(w, i) == (Bit(a, i) && Bit(b, i))
    else op.BitOr? && forall i: nat | i < 32 :: Bit(w, i) == (Bit(a, i) || Bit(b, i))
  }

  /** q is a quotient cut toward zero: the remainder is smaller than the divisor and has the sign of the
      dividend. */
  predicate Divided(a: int, b: int, q: int) {
    var r := a - q * b;
    b != 0 && Abs(r) < Abs(b) && (r == 0 || (r < 0) == (a < 0))
  }

  predicate IsUnary(op: Token) { op.Positive? || op.Negative? || op.BitNot? }

  /** A binary operator has the value that it should, */
  lemma Apply2Combines(op: Token, a: Word, b: Word)
    requires !IsUnary(op) && Apply2(op, a, b).Val?
    ensures Combines(op, a, b, Apply2(op, a, b).w)
  {
    hide Isa.TruncDiv, Bit, Divided, Combines, Apply2;
    if op.BitAnd? || op.BitOr? { DigitsCombine(op, a, b); }
    else if op.Times? { ProductCombines(a, b); }
    else if op.Divide? { QuotientCombines(a, b); }
    else { SumCombines(op, a, b); }
  }

  lemma DigitsCombine(op: Token, a: Word, b: Word)
    requires op.BitAnd? || op.BitOr?
    ensures Apply2(op, a, b).Val? && Combines(op, a, b, Apply2(op, a, b).w)
  {
    hide Bit;
    AndDefined(a, b);
    OrDefined(a, b);
    assert IsAnd(a, b, AndW(a, b)) && IsOr(a, b, OrW(a, b));
  }

  lemma SumCombines(op: Token, a: Word, b: Word)
    requires op.Plus? || op.Minus?
    ensures Apply2(op, a, b).Val? && Combines(op, a, b, Apply2(op, a, b).w)
  {
    hide Wrap, Signed;
    var k := SignedWhole(a);
    var l := SignedWhole(b);
    WrapsTo(Signed(a) + Signed(b), a + b, k + l);
    WrapsTo(Signed(a) - Signed(b), a - b, k - l);
  }

  lemma ProductCombines(a: Word, b: Word)
    ensures Apply2(Times, a, b).Val? && Combines(Times, a, b, Apply2(Times, a, b).w)
  {
    hide Wrap, Signed;
    ProductWraps(a, b);
  }

  lemma QuotientCombines(a: Word, b: Word)
    requires Apply2(Divide, a, b).Val?
    ensures Combines(Divide, a, b, Apply2(Divide, a, b).w)
  {
    hide Divided, Isa.TruncDiv;
    QuotientIs(a, b);
  }

  /** that one and no other; */
  lemma Apply2Is(op: Token, a: Word, b: Word, w: Word)
    requires !IsUnary(op)
    ensures Apply2(op, a, b) == Val(w) <==> Combines(op, a, b, w)
  {
    hide Combines, Apply2;
    if Apply2(op, a, b) == Val(w) { Apply2Combines(op, a, b); }
    if Combines(op, a, b, w) {
      CombinesSome(op, a, b, w);
      Apply2Combines(op, a, b);
      OneResult(op, a, b, w, Apply2(op, a, b).w);
    }
  }

  lemma CombinesSome(op: Token, a: Word, b: Word, w: Word)
    requires !IsUnary(op) && Combines(op, a, b, w)
    ensures Apply2(op, a, b).Val?
  {
    hide AndW, OrW, Isa.TruncDiv;
  }

  lemma OneResult(op: Token, a: Word, b: Word, w: Word, x: Word)
    requires Combines(op, a, b, w) && Combines(op, a, b, x)
    ensures w == x
  {
    hide Bit;
    if op.Plus? { Arithmetic.SameModulo(a + b, w, x); }
    else if op.Minus? { Arithmetic.SameModulo(a - b, w, x); }
    else if op.Times? { Arithmetic.SameModulo(a * b, w, x); }
    else if op.Divide? { SameQuotient(Signed(a), Signed(b), w, x); }
    else { SameDigits(a, b, w, x); }
  }

  lemma SameDigits(a: Word, b: Word, w: Word, x: Word)
    requires forall i: nat | i < 32 :: Bit(w, i) == Bit(x, i)
    ensures w == x
  {
    PowersOfTwo();
    SameBits(w, x, 32);
  }

  lemma SameQuotient(a: int, b: int, w: Word, x: Word)
    requires Divided(a, b, Signed(w)) && Divided(a, b, Signed(x))
    ensures w == x
  {
    Division.OneQuotient(a, b, Signed(w), a - Signed(w) * b);
    Division.OneQuotient(a, b, Signed(x), a - Signed(x) * b);
    Arithmetic.SignedApart(w, x);
  }

  /** and it fails exactly for a zero divisor and for the one quotient that does not fit. */
  lemma Apply2Fails(op: Token, a: Word, b: Word)
    requires !IsUnary(op)
    ensures Apply2(op, a, b) == ByZero <==> op.Divide? && b == 0
    ensures Apply2(op, a, b) == Value.Overflow <==> op.Divide? && Signed(a) == -0x8000_0000 && Signed(b) == -1
    ensures !Apply2(op, a, b).Unexpected?
  {
    hide AndW, OrW, Isa.TruncDiv;
  }

  /** Taking away and adding again, in either order, changes nothing. */
  lemma MinusUndoesPlus(a: Word, b: Word, op: Token, back: Token, w: Word)
    requires (op.Plus? && back.Minus?) || (op.Minus? && back.Plus?)
    requires Apply2(op, a, b) == Val(w)
    ensures Apply2(back, w, b) == Val(a)
  {
    hide Apply2;
    Apply2Is(op, a, b, w);
    var k := (if op.Plus? then a + b - w else a - b - w) / 0x1_0000_0000;
    ModUnique((if op.Plus? then w - b else w + b) - a, 0x1_0000_0000, -k, 0);
    Apply2Is(back, w, b, a);
  }

  /** The unary operators: the number itself, the one that it makes 0 with, and the opposite digits. */
  ghost predicate Changes(op: Token, a: Word, w: Word) {
    if op.Positive? then w == a
    else if op.Negative? then (a + w) % 0x1_0000_0000 == 0
    else op.BitNot? && forall i: nat | i < 32 :: Bit(w, i) == !Bit(a, i)
  }

  lemma Apply1Is(op: Token, a: Word, w: Word)
    requires IsUnary(op)
    ensures Apply1(op, a) == Val(w) <==> Changes(op, a, w)
  {
    hide Changes, Apply1;
    Apply1Changes(op, a);
    if Changes(op, a, w) { OneChange(op, a, w, Apply1(op, a).w); }
  }

  lemma OneChange(op: Token, a: Word, w: Word, x: Word)
    requires Changes(op, a, w) && Changes(op, a, x)
    ensures w == x
  {
    hide Bit;
    if op.BitNot? { SameNot(a, w, x); } else if op.Negative? { SameNegative(a, w, x); }
  }

  lemma SameNegative(a: Word, w: Word, x: Word)
    requires (a + w) % 0x1_0000_0000 == 0 && (a + x) % 0x1_0000_0000 == 0
    ensures w == x
  {
  }

  lemma SameNot(a: Word, w: Word, x: Word)
    requires forall i: nat | i < 32 :: Bit(w, i) == !Bit(a, i)
    requires forall i: nat | i < 32 :: Bit(x, i) == !Bit(a, i)
    ensures w == x
  {
    hide Bit;
    forall i: nat | i < 32 ensures Bit(w, i) == Bit(x, i) { assert Bit(w, i) == !Bit(a, i); }
    SameDigits(a, a, w, x);
  }

  lemma Apply1Changes(op: Token, a: Word)
    requires IsUnary(op)
    ensures Apply1(op, a).Val? && Changes(op, a, Apply1(op, a).w)
  {
    hide Bit, Not;
    if op.BitNot? { NotDigits(a); } else if op.Negative? { NegativeIs(a); }
  }

  lemma NegativeIs(a: Word)
    ensures (a + Wrap(0 - Signed(a))) % 0x1_0000_0000 == 0
  {
  }

  lemma NotDigits(a: Word)
    ensures forall i: nat | i < 32 :: Bit(Not(a), i) == !Bit(a, i)
  {
    hide Bit;
    PowersOfTwo();
    forall i: nat | i < 32 ensures Bit(Not(a), i) == !Bit(a, i) { Arithmetic.NotBits(a, 32, i); }
  }

  /** Each of them undoes itself. */
  lemma UnaryTwice(op: Token, a: Word, w: Word)
    requires IsUnary(op) && Apply1(op, a) == Val(w)
    ensures Apply1(op, w) == Val(a)
  {
    hide Apply1, Bit;
    Apply1Is(op, a, w);
    Apply1Is(op, w, a);
  }

  lemma SignedWhole(a: Word) returns (k: int)
    ensures a == Signed(a) + k * 0x1_0000_0000
  {
    k := if a < 0x8000_0000 then 0 else 1;
  }

  /** Numbers that differ by a multiple of 2^32 wrap to the same word. */
  lemma WrapsTo(x: int, y: int, k: int)
    requires y == x + k * 0x1_0000_0000
    ensures Wrap(x) == Wrap(y) && (y - Wrap(x)) % 0x1_0000_0000 == 0
  {
    SameWrap(y, x, k);
    WrapParts(x);
    ModUnique(y - Wrap(x), 0x1_0000_0000, k + x / 0x1_0000_0000, 0);
  }

  lemma ProductWraps(a: Word, b: Word)
    ensures Wrap(Signed(a) * Signed(b)) == Wrap(a * b)
    ensures (a * b - Wrap(Signed(a) * Signed(b))) % 0x1_0000_0000 == 0
  {
    var k := SignedWhole(a);
    var l := SignedWhole(b);
    var x, y := Signed(a), Signed(b);
    ProductExpands(x, y, k, l);
    WrapsTo(x * y, a * b, k * y + l * x + k * l * 0x1_0000_0000);
  }

  lemma ProductExpands(x: int, y: int, k: int, l: int)
    ensures (x + k * 0x1_0000_0000) * (y + l * 0x1_0000_0000) == x * y + (k * y + l * x + k * l * 0x1_0000_0000) * 0x1_0000_0000
  {
  }

  lemma QuotientIs(a: Word, b: Word)
    requires b != 0 && !(a == 0x8000_0000 && b == 0xffff_ffff)
    ensures Divided(Signed(a), Signed(b), Signed(Wrap(Isa.TruncDiv(Signed(a), Signed(b)))))
  {
    hide Isa.TruncDiv, Isa.TruncMod;
    Division.TruncatingLaw(Signed(a), Signed(b));
    Division.QuotientFits(a, b);
    Division.SignedBack(Isa.TruncDiv(Signed(a), Signed(b)));
  }

  // ---------- Texts without parentheses ----------

  /** An operator and the number behind it. */
  datatype Item = Item(op: char, n: Word)

  predicate IsOperator(c: char) { c in "|&+-*/" }

  function TokenOf(c: char): Token
    requires IsOperator(c)
  {
    match c
    case '|' => BitOr
    case '&' => BitAnd
    case '+' => Plus
    case '-' => Minus
    case '*' => Times
    case _ => Divide
  }

  /** How tightly an operator holds its operands. */
  function Tightness(c: char): nat {
    if c == '|' then 1 else if c == '&' then 2 else if c == '+' || c == '-' then 3 else 4
  }

  predicate WellFormed(rest: seq<Item>) { forall k | 0 <= k < |rest| :: IsOperator(rest[k].op) }

  /** Numbers with operators between them, and no blanks. */
  function Flat(rest: seq<Item>): string {
    if rest == [] then "" else [rest[0].op] + Decimal(rest[0].n) + Flat(rest[1..])
  }

  /** The last of the operators that hold their operands least. */
  function Loosest(rest: seq<Item>): (k: nat)
    requires rest != []
    ensures k < |rest|
    ensures forall i | 0 <= i < |rest| :: Tightness(rest[k].op) <= Tightness(rest[i].op)
    ensures forall i | k < i < |rest| :: Tightness(rest[k].op) < Tightness(rest[i].op)
  {
    if |rest| == 1 then 0
    else
      var k := Loosest(rest[..|rest| - 1]);
      if Tightness(rest[|rest| - 1].op) <= Tightness(rest[k].op) then |rest| - 1 else k
  }

  /** The value of a text: its two sides are worked out before its loosest operator. */
  function Meaning(a: Word, rest: seq<Item>): Value
    requires WellFormed(rest)
    decreases |rest|
  {
    if rest == [] then Val(a)
    else
      var k := Loosest(rest);
      Then(Meaning(a, rest[..k]), TokenOf(rest[k].op), Meaning(rest[k].n, rest[k + 1..]))
  }

  lemma LoosestIs(rest: seq<Item>, k: nat)
    requires k < |rest|
    requires forall i | 0 <= i < |rest| :: Tightness(rest[k].op) <= Tightness(rest[i].op)
    requires forall i | k < i < |rest| :: Tightness(rest[k].op) < Tightness(rest[i].op)
    ensures Loosest(rest) == k
  {
    var j := Loosest(rest);
    assert Tightness(rest[k].op) <= Tightness(rest[j].op) <= Tightness(rest[k].op);
  }

  // ---------- Parsing them ----------

  /** All operators hold more tightly than level l is loose. */
  predicate From(rest: seq<Item>, l: nat) {
    WellFormed(rest) && forall k | 0 <= k < |rest| :: Tightness(rest[k].op) > l
  }

  /** Behind an operand at level l: the end, or a looser operator and a number. */
  predicate Follows(t: string, l: nat) {
    t == "" || (|t| >= 2 && IsOperator(t[0]) && Tightness(t[0]) <= l && IsDigit(t[1]))
  }

  ghost predicate HasValue(x: Operand, v: Value) { forall look: Lookup :: Eval(x, look) == v }

  lemma OperatorLevels(c: char, l: nat)
    requires IsOperator(c) && l < 4
    ensures BinaryOp(l, c) == if Tightness(c) == l + 1 then Instruction.Some(TokenOf(c)) else Instruction.None
    ensures !Blank(c) && c != '#' && !IsDigit(c) && c != 'x' && c != 'b'
  {
  }

  lemma FollowsSkips(t: string, l: nat)
    requires Follows(t, l)
    ensures Skip(t) == Instruction.Some(t) && StopsNumber(t)
  {
    if t != "" {
      OperatorLevels(t[0], 0);
      SkipsNothing(t);
    }
  }

  lemma FollowsQuiet(t: string, l: nat)
    requires Follows(t, l) && l < 4
    ensures Quiet(l, l + 1, t)
  {
    hide Skip, BinaryOp, Tightness, IsOperator;
    FollowsSkips(t, l);
    if t != "" { OperatorLevels(t[0], l); }
  }

  lemma FlatStarts(rest: seq<Item>, t: string, l: nat)
    requires WellFormed(rest) && (if rest == [] then Follows(t, l) else Tightness(rest[0].op) <= l)
    ensures Follows(Flat(rest) + t, l)
  {
    hide Tightness, IsOperator, Decimal;
    if rest == [] {
      assert Flat(rest) + t == t;
    } else {
      DecimalDigits(rest[0].n);
      var u := Decimal(rest[0].n) + Flat(rest[1..]) + t;
      assert u[0] == Decimal(rest[0].n)[0];
      assert Flat(rest) + t == [rest[0].op] + u;
    }
  }

  /** The items before the first operator of level l. */
  function Run(rest: seq<Item>, l: nat): (k: nat)
    ensures k <= |rest| && (k < |rest| ==> Tightness(rest[k].op) <= l + 1)
    ensures forall i | 0 <= i < k :: Tightness(rest[i].op) > l + 1
  {
    if rest == [] || Tightness(rest[0].op) <= l + 1 then 0 else 1 + Run(rest[1..], l)
  }

  lemma {:induction false} FlatSplits(rest: seq<Item>, k: nat)
    requires k <= |rest|
    ensures Flat(rest) == Flat(rest[..k]) + Flat(rest[k..])
  {
    hide Decimal, Flat;
    if k == 0 {
      NothingOn(Flat(rest));
      assert rest[..0] == [] && rest[0..] == rest;
    } else {
      FlatSplits(rest[1..], k - 1);
      assert rest[..k][1..] == rest[1..][..k - 1] && rest[1..][k - 1..] == rest[k..];
      var h := [rest[0].op] + Decimal(rest[0].n);
      FlatHead(rest, h);
      FlatHead(rest[..k], h);
      assert h + (Flat(rest[..k][1..]) + Flat(rest[k..])) == h + Flat(rest[..k][1..]) + Flat(rest[k..]);
    }
  }

  lemma FlatHead(rest: seq<Item>, h: string)
    requires rest != [] && h == [rest[0].op] + Decimal(rest[0].n)
    ensures Flat(rest) == h + Flat(rest[1..])
  {
  }

  lemma NothingOn(t: string)
    ensures Flat([]) + t == t
  {
  }

  lemma NumberAlone(a: Word, t: string, reserved: set<string>)
    requires Follows(t, 4)
    ensures ParseLevel(4, Decimal(a) + t, reserved) == Parsed(Number(a), t) && HasValue(Number(a), Val(a))
  {
    hide Follows, ParsePrimary, ParseUnary, Decimal, Skip;
    FollowsSkips(t, 4);
    NumberParses(a, t, reserved);
    PrimaryParses(Decimal(a) + t, Number(a), t, reserved);
    AtLevel4(Decimal(a) + t, reserved);
  }

  lemma Slices(rest: seq<Item>, l: nat)
    requires From(rest, l)
    ensures var k := Run(rest, l);
            From(rest[..k], l + 1) && From(rest[k..], l) && (k < |rest| ==> Tightness(rest[k].op) == l + 1)
  {
    hide Tightness, IsOperator;
    var k := Run(rest, l);
    assert forall i | 0 <= i < |rest[k..]| :: rest[k..][i] == rest[k + i];
  }

  /** A text of operators above level l is parsed at that level up to its end, and has its value. */
  lemma {:induction false} FlatParses(l: nat, a: Word, rest: seq<Item>, t: string, reserved: set<string>)
    returns (x: Operand)
    requires l <= 4 && From(rest, l) && Follows(t, l)
    ensures ParseLevel(l, Decimal(a) + (Flat(rest) + t), reserved) == Parsed(x, t)
    ensures HasValue(x, Meaning(a, rest))
    decreases |rest|, 4 - l, 1
  {
    hide Follows, ParseUnary, Decimal, Skip, Flat, HasValue, ParseRest, Run;
    if l == 4 {
      if rest != [] { NoneTighter(rest); }
      NothingOn(t);
      NumberAlone(a, t, reserved);
      x := Number(a);
    } else {
      x := LevelParses(l, a, rest, t, reserved);
    }
  }

  lemma NoneTighter(rest: seq<Item>)
    requires rest != []
    ensures !From(rest, 4)
  {
    assert Tightness(rest[0].op) <= 4;
  }

  lemma LevelParses(l: nat, a: Word, rest: seq<Item>, t: string, reserved: set<string>) returns (x: Operand)
    requires l < 4 && From(rest, l) && Follows(t, l)
    ensures ParseLevel(l, Decimal(a) + (Flat(rest) + t), reserved) == Parsed(x, t)
    ensures HasValue(x, Meaning(a, rest))
    decreases |rest|, 4 - l, 0, 1
  {
    hide Follows, ParseUnary, Decimal, Skip, Flat, HasValue, ParseRest, Run, From, Tightness, Meaning;
    var k := Run(rest, l);
    Slices(rest, l);
    WellFormedFrom(rest, l);
    WellFormedFrom(rest[..k], l + 1);
    var y := HeadParses(l, k, a, rest, t, reserved);
    SingleValue(y, Meaning(a, rest[..k]));
    x := RestFlat(l, Expr(y, []), a, rest[..k], rest[k..], t, reserved);
    assert rest[..k] + rest[k..] == rest;
  }

  lemma WellFormedFrom(rest: seq<Item>, l: nat)
    requires From(rest, l)
    ensures WellFormed(rest) && (l > 0 ==> From(rest, l - 1))
  {
  }

  lemma HeadParses(l: nat, k: nat, a: Word, rest: seq<Item>, t: string, reserved: set<string>) returns (y: Operand)
    requires l < 4 && From(rest, l) && Follows(t, l) && k == Run(rest, l)
    ensures ParseLevel(l + 1, Decimal(a) + (Flat(rest) + t), reserved) == Parsed(y, Flat(rest[k..]) + t)
    ensures From(rest[..k], l + 1) && HasValue(y, Meaning(a, rest[..k]))
    decreases |rest|, 4 - l, 0, 0
  {
    hide ParseLevel, Decimal, Flat, HasValue, Tightness, Follows, From, Run, Meaning;
    Slices(rest, l);
    WellFormedFrom(rest[k..], l);
    FollowsMore(t, l);
    FlatStarts(rest[k..], t, l + 1);
    y := FlatParses(l + 1, a, rest[..k], Flat(rest[k..]) + t, reserved);
    FlatSplits(rest, k);
    assert Flat(rest) + t == Flat(rest[..k]) + (Flat(rest[k..]) + t);
  }

  lemma FollowsMore(t: string, l: nat)
    requires Follows(t, l)
    ensures Follows(t, l + 1)
  {
  }

  lemma SingleValue(y: Operand, v: Value)
    requires HasValue(y, v)
    ensures HasValue(Nested(Expr(y, [])), v)
  {
    forall look: Lookup ensures Eval(Nested(Expr(y, [])), look) == v {
      assert EvalExpr(Expr(y, []), look) == Eval(y, look);
    }
  }

  /** The operations of level l behind the items `done`, one after the other. */
  lemma {:induction false} RestFlat(l: nat, e: Expr, a: Word, done: seq<Item>, todo: seq<Item>, t: string,
                                    reserved: set<string>) returns (x: Operand)
    requires l < 4 && From(done, l) && From(todo, l) && Follows(t, l)
    requires todo != [] ==> Tightness(todo[0].op) == l + 1
    requires HasValue(Nested(e), Meaning(a, done))
    ensures ParseRest(l, e, Flat(todo) + t, reserved) == Parsed(x, t)
    ensures HasValue(x, Meaning(a, done + todo))
    decreases |todo|, 4 - l, 0, 0
  {
    hide Follows, ParseLevel, Decimal, Skip, Flat, HasValue, Tightness, ParseRest, Meaning, From, Run;
    if todo == [] {
      NothingOn(t);
      FollowsQuiet(t, l);
      QuietRest(l, e, t, reserved);
      x := Nested(e);
      assert done + todo == done;
    } else {
      var n, tail := todo[0].n, todo[1..];
      var k := Run(tail, l);
      TailFrom(todo, l);
      Slices(tail, l);
      var y := HeadParses(l, k, n, tail, t, reserved);
      var e' := Expr(e.first, e.rest + [Operation(TokenOf(todo[0].op), y)]);
      OneOperation(l, e, todo, t, y, Flat(tail[k..]) + t, reserved);
      var done' := done + [todo[0]] + tail[..k];
      ValueGrows(l, e, e', a, done, todo[0], tail[..k], y);
      x := RestFlat(l, e', a, done', tail[k..], t, reserved);
      assert done' + tail[k..] == done + todo;
    }
  }

  lemma OneOperation(l: nat, e: Expr, todo: seq<Item>, t: string, y: Operand, u: string, reserved: set<string>)
    requires l < 4 && WellFormed(todo) && todo != [] && Tightness(todo[0].op) == l + 1
    requires ParseLevel(l + 1, Decimal(todo[0].n) + (Flat(todo[1..]) + t), reserved) == Parsed(y, u)
    ensures ParseRest(l, e, Flat(todo) + t, reserved) ==
            ParseRest(l, Expr(e.first, e.rest + [Operation(TokenOf(todo[0].op), y)]), u, reserved)
  {
    hide ParseLevel, Decimal, Tightness, BinaryOp, TokenOf, Skip, IsOperator;
    var v := Decimal(todo[0].n) + (Flat(todo[1..]) + t);
    var s := [todo[0].op] + v;
    assert Flat(todo) + t == s && s[1..] == v;
    DecimalDigits(todo[0].n);
    assert s[1] == Decimal(todo[0].n)[0];
    OperatorLevels(todo[0].op, l);
    SkipsNothing(s);
  }

  lemma TailFrom(todo: seq<Item>, l: nat)
    requires From(todo, l) && todo != []
    ensures From(todo[1..], l) && WellFormed(todo)
  {
  }

  lemma ValueGrows(l: nat, e: Expr, e': Expr, a: Word, done: seq<Item>, i: Item, run: seq<Item>, y: Operand)
    requires l < 4 && From(done, l) && From(run, l + 1) && IsOperator(i.op) && Tightness(i.op) == l + 1
    requires HasValue(Nested(e), Meaning(a, done)) && HasValue(y, Meaning(i.n, run))
    requires e' == Expr(e.first, e.rest + [Operation(TokenOf(i.op), y)])
    ensures From(done + [i] + run, l) && HasValue(Nested(e'), Meaning(a, done + [i] + run))
  {
    hide Then, TokenOf, IsOperator, Tightness, Meaning, From;
    MeaningGrows(l, a, done, i, run);
    WellFormedFrom(done, l);
    WellFormedFrom(run, l + 1);
    var v, w := Meaning(a, done), Meaning(i.n, run);
    forall look: Lookup ensures Eval(Nested(e'), look) == Then(v, TokenOf(i.op), w) {
      PrefixValue(e, e', |e.rest|, look);
      assert Eval(Nested(e), look) == v && Eval(y, look) == w;
      assert EvalTo(e', |e.rest|, look) == EvalTo(e, |e.rest|, look) == EvalExpr(e, look) == v;
      assert EvalExpr(e', look) == Then(EvalTo(e', |e.rest|, look), TokenOf(i.op), Eval(y, look));
    }
  }

  lemma MeaningGrows(l: nat, a: Word, done: seq<Item>, i: Item, run: seq<Item>)
    requires From(done, l) && From(run, l + 1) && IsOperator(i.op) && Tightness(i.op) == l + 1
    ensures From(done + [i] + run, l)
    ensures Meaning(a, done + [i] + run) == Then(Meaning(a, done), TokenOf(i.op), Meaning(i.n, run))
  {
    hide Then, TokenOf, IsOperator, Tightness;
    var all, k := done + [i] + run, |done|;
    LoosestIs(all, k);
    assert all[..k] == done && all[k + 1..] == run && all[k] == i;
  }

  /** Numbers with operators between them: the whole text is used up, and has the value that comes from
      splitting it at its loosest operators, the last one first. */
  lemma FlatHasMeaning(a: Word, rest: seq<Item>, reserved: set<string>) returns (x: Operand)
    requires WellFormed(rest)
    ensures ParseLevel(0, Decimal(a) + Flat(rest), reserved) == Parsed(x, "") && HasValue(x, Meaning(a, rest))
  {
    hide ParseLevel, Decimal, Flat, HasValue, Meaning;
    x := FlatParses(0, a, rest, "", reserved);
    assert Flat(rest) + "" == Flat(rest);
  }

  // ---------- Three numbers ----------

  /** The text is used up and has the value v. */
  ghost predicate Evaluates(s: string, reserved: set<string>, v: Value) {
    exists x :: ParseLevel(0, s, reserved) == Parsed(x, "") && HasValue(x, v)
  }

  function Three(a: Word, p: string, b: Word, q: string, c: Word): string {
    Decimal(a) + p + Decimal(b) + q + Decimal(c)
  }

  /** The tighter operator goes first, and of two alike the left one. */
  lemma ThreeNumbers(a: Word, p: char, b: Word, q: char, c: Word, reserved: set<string>)
    requires IsOperator(p) && IsOperator(q)
    ensures Evaluates(Three(a, [p], b, [q], c), reserved,
                      if Tightness(p) < Tightness(q) then Then(Val(a), TokenOf(p), Apply2(TokenOf(q), b, c))
                      else Then(Apply2(TokenOf(p), a, b), TokenOf(q), Val(c)))
  {
    hide Decimal, ParseLevel, HasValue, Apply2, TokenOf, IsOperator, Tightness;
    var rest := [Item(p, b), Item(q, c)];
    ThreeMeaning(a, p, b, q, c);
    ThreeFlat(p, b, q, c);
    var x := FlatHasMeaning(a, rest, reserved);
    assert Three(a, [p], b, [q], c) == Decimal(a) + Flat(rest);
  }

  lemma ThreeFlat(p: char, b: Word, q: char, c: Word)
    ensures Flat([Item(p, b), Item(q, c)]) == [p] + Decimal(b) + ([q] + Decimal(c))
  {
    hide Decimal;
    var rest := [Item(p, b), Item(q, c)];
    assert rest[1..] == [Item(q, c)] && [Item(q, c)][1..] == [];
    assert [q] + Decimal(c) + Flat([]) == [q] + Decimal(c);
  }

  lemma OneMeaning(a: Word, p: char, b: Word)
    requires IsOperator(p)
    ensures Meaning(a, [Item(p, b)]) == Apply2(TokenOf(p), a, b)
  {
    hide Apply2, TokenOf, IsOperator, Tightness;
    var rest := [Item(p, b)];
    LoosestIs(rest, 0);
    assert rest[..0] == [] && rest[1..] == [];
  }

  lemma ThreeMeaning(a: Word, p: char, b: Word, q: char, c: Word)
    requires IsOperator(p) && IsOperator(q)
    ensures Meaning(a, [Item(p, b), Item(q, c)]) ==
            if Tightness(p) < Tightness(q) then Then(Val(a), TokenOf(p), Apply2(TokenOf(q), b, c))
            else Then(Apply2(TokenOf(p), a, b), TokenOf(q), Val(c))
  {
    hide Apply2, TokenOf, IsOperator, Tightness;
    var rest := [Item(p, b), Item(q, c)];
    OneMeaning(a, p, b);
    OneMeaning(b, q, c);
    if Tightness(p) < Tightness(q) {
      LoosestIs(rest, 0);
      assert rest[..0] == [] && rest[1..] == [Item(q, c)];
    } else {
      LoosestIs(rest, 1);
      assert rest[..1] == [Item(p, b)] && rest[2..] == [];
    }
  }

  /** Sums of a word and a number known modulo 2^32. */
  lemma SumWraps(a: Word, x: int)
    ensures Apply2(Plus, a, Wrap(x)) == Val(Wrap(a + x)) && Apply2(Minus, a, Wrap(x)) == Val(Wrap(a - x))
    ensures Apply2(Plus, Wrap(x), a) == Val(Wrap(x + a)) && Apply2(Minus, Wrap(x), a) == Val(Wrap(x - a))
  {
    hide Apply2, Wrap, Signed;
    var k := x / 0x1_0000_0000;
    WrapParts(x);
    SumIs(a, Wrap(x));
    SumIs(Wrap(x), a);
    SameWrap(a + x, a + Wrap(x), k);
    SameWrap(a - x, a - Wrap(x), -k);
    SameWrap(x - a, Wrap(x) - a, k);
  }

  lemma SumIs(a: Word, b: Word)
    ensures Apply2(Plus, a, b) == Val(Wrap(a + b)) && Apply2(Minus, a, b) == Val(Wrap(a - b))
  {
    hide Wrap, Signed;
    var k := SignedWhole(a);
    var l := SignedWhole(b);
    WrapsTo(Signed(a) + Signed(b), a + b, k + l);
    WrapsTo(Signed(a) - Signed(b), a - b, k - l);
  }

  /** Products before sums and differences. */
  lemma ProductsFirst(a: Word, b: Word, c: Word, reserved: set<string>)
    ensures Evaluates(Three(a, "+", b, "*", c), reserved, Val(Wrap(a + b * c)))
    ensures Evaluates(Three(a, "-", b, "*", c), reserved, Val(Wrap(a - b * c)))
    ensures Evaluates(Three(a, "*", b, "+", c), reserved, Val(Wrap(a * b + c)))
    ensures Evaluates(Three(a, "*", b, "-", c), reserved, Val(Wrap(a * b - c)))
  {
    hide Evaluates, Three, Apply2, Wrap;
    TimesIs(b, c);
    TimesIs(a, b);
    SumWraps(a, b * c);
    SumWraps(c, a * b);
    ThreeNumbers(a, '+', b, '*', c, reserved);
    ThreeNumbers(a, '-', b, '*', c, reserved);
    ThreeNumbers(a, '*', b, '+', c, reserved);
    ThreeNumbers(a, '*', b, '-', c, reserved);
  }

  lemma TimesIs(a: Word, b: Word)
    ensures Apply2(Times, a, b) == Val(Wrap(a * b))
  {
    hide Wrap, Signed;
    ProductWraps(a, b);
  }

  /** Quotients before sums and differences, */
  lemma QuotientsFirst(a: Word, b: Word, c: Word, q: Word, reserved: set<string>)
    requires Divided(Signed(b), Signed(c), Signed(q))
    ensures Evaluates(Three(a, "+", b, "/", c), reserved, Val(Wrap(a + q)))
    ensures Evaluates(Three(a, "-", b, "/", c), reserved, Val(Wrap(a - q)))
    ensures Evaluates(Three(b, "/", c, "+", a), reserved, Val(Wrap(q + a)))
    ensures Evaluates(Three(b, "/", c, "-", a), reserved, Val(Wrap(q - a)))
  {
    hide Evaluates, Three, Apply2, Wrap, Divided;
    Apply2Is(Divide, b, c, q);
    SumIs(a, q);
    SumIs(q, a);
    ThreeNumbers(a, '+', b, '/', c, reserved);
    ThreeNumbers(a, '-', b, '/', c, reserved);
    ThreeNumbers(b, '/', c, '+', a, reserved);
    ThreeNumbers(b, '/', c, '-', a, reserved);
  }

  /** and a zero divisor fails. */
  lemma ZeroDivisor(a: Word, b: Word, reserved: set<string>)
    ensures Evaluates(Three(a, "+", b, "/", 0), reserved, ByZero)
  {
    hide Evaluates, Three, Apply2;
    Apply2Fails(Divide, b, 0);
    ThreeNumbers(a, '+', b, '/', 0, reserved);
  }

  /** Sums before `&`, */
  lemma SumsBeforeAnd(a: Word, b: Word, c: Word, w: Word, reserved: set<string>)
    requires forall i: nat | i < 32 :: Bit(w, i) == (Bit(a, i) && Bit(Wrap(b + c), i))
    ensures Evaluates(Three(a, "&", b, "+", c), reserved, Val(w))
    ensures Evaluates(Three(b, "+", c, "&", a), reserved, Val(w))
  {
    hide Evaluates, Three, Apply2, Wrap, Bit;
    Apply2Is(BitAnd, a, Wrap(b + c), w);
    Apply2Is(BitAnd, Wrap(b + c), a, w);
    SumIs(b, c);
    ThreeNumbers(a, '&', b, '+', c, reserved);
    ThreeNumbers(b, '+', c, '&', a, reserved);
  }

  /** and `&` before `|`. */
  lemma AndBeforeOr(a: Word, b: Word, c: Word, w: Word, reserved: set<string>)
    requires forall i: nat | i < 32 :: Bit(w, i) == (Bit(a, i) || (Bit(b, i) && Bit(c, i)))
    ensures Evaluates(Three(a, "|", b, "&", c), reserved, Val(w))
    ensures Evaluates(Three(b, "&", c, "|", a), reserved, Val(w))
  {
    hide Evaluates, Three, Apply2, Bit;
    var u := AndW(b, c);
    AndDefined(b, c);
    assert IsAnd(b, c, u);
    Apply2Is(BitAnd, b, c, u);
    Apply2Is(BitOr, a, u, w);
    Apply2Is(BitOr, u, a, w);
    ThreeNumbers(a, '|', b, '&', c, reserved);
    ThreeNumbers(b, '&', c, '|', a, reserved);
  }

  /** Operators that hold alike go from left to right. */
  lemma LeftToRight(a: Word, b: Word, c: Word, reserved: set<string>)
    ensures Evaluates(Three(a, "-", b, "-", c), reserved, Val(Wrap(a - b - c)))
    ensures Evaluates(Three(a, "-", b, "+", c), reserved, Val(Wrap(a - b + c)))
    ensures Evaluates(Three(a, "+", b, "-", c), reserved, Val(Wrap(a + b - c)))
  {
    hide Evaluates, Three, Apply2, Wrap;
    SumIs(a, b);
    SumWraps(c, a - b);
    SumWraps(c, a + b);
    ThreeNumbers(a, '-', b, '-', c, reserved);
    ThreeNumbers(a, '-', b, '+', c, reserved);
    ThreeNumbers(a, '+', b, '-', c, reserved);
  }

  lemma QuotientThenProduct(a: Word, b: Word, c: Word, q: Word, reserved: set<string>)
    requires Divided(Signed(a), Signed(b), Signed(q))
    ensures Evaluates(Three(a, "/", b, "*", c), reserved, Val(Wrap(q * c)))
  {
    hide Evaluates, Three, Apply2, Wrap, Divided;
    Apply2Is(Divide, a, b, q);
    TimesIs(q, c);
    ThreeNumbers(a, '/', b, '*', c, reserved);
  }
}
