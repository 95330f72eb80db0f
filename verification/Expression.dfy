/** Constant expressions of the assembler: the syntax tree, its printer and evaluator, the grammar, and
    why printing and parsing again keeps the value. */
module Expression {
  import opened Word
  import Isa
  import Instruction

  type Option<+T> = Instruction.Option<T>

  // ---------- Trees ----------

  datatype Token = Plus | Minus | Times | Divide | Positive | Negative | BitNot | BitAnd | BitOr

  datatype Operand = Number(n: Word) | Label(name: string) | Unary(op: Token, arg: Operand) | Nested(e: Expr)

  datatype Expr = Expr(first: Operand, rest: seq<Operation>)

  datatype Operation = Operation(op: Token, arg: Operand)

  function Char(op: Token): char {
    match op
    case Plus | Positive => '+'
    case Minus | Negative => '-'
    case Times => '*'
    case Divide => '/'
    case BitNot => '~'
    case BitAnd => '&'
    case BitOr => '|'
  }

  // ---------- Evaluation ----------

  /** A word, or the reason why there is none: the divisions that C leaves undefined, and an operator
      out of place. */
  datatype Value = Val(w: Word) | ByZero | Overflow | Unexpected

  type Lookup = string -> Word

  function Apply1(op: Token, v: Word): Value {
    if op.Positive? then Val(v)
    else if op.Negative? then Val(Wrap(0 - Signed(v)))
    else if op.BitNot? then Val(Not(v))
    else Unexpected
  }

  function Apply2(op: Token, a: Word, b: Word): Value {
    match op
    case Plus => Val(Wrap(Signed(a) + Signed(b)))
    case Minus => Val(Wrap(Signed(a) - Signed(b)))
    case Times => Val(Wrap(Signed(a) * Signed(b)))
    case Divide =>
      if b == 0 then ByZero
      else if a == 0x8000_0000 && b == 0xffff_ffff then Overflow
      else Val(Wrap(Isa.TruncDiv(Signed(a), Signed(b))))
    case BitAnd => Val(AndW(a, b))
    case BitOr => Val(OrW(a, b))
    case Positive | Negative | BitNot => Unexpected
  }

  function Eval(x: Operand, look: Lookup): Value
    decreases x, 0
  {
    match x
    case Number(n) => Val(n)
    case Label(name) => Val(look(name))
    case Unary(op, arg) => (var v := Eval(arg, look); if v.Val? then Apply1(op, v.w) else v)
    case Nested(e) => EvalExpr(e, look)
  }

  function EvalExpr(e: Expr, look: Lookup): Value
    decreases e, |e.rest| + 1
  {
    EvalTo(e, |e.rest|, look)
  }

  /** The value after the first i operations. */
  function EvalTo(e: Expr, i: nat, look: Lookup): Value
    requires i <= |e.rest|
    decreases e, i
  {
    if i == 0 then Eval(e.first, look)
    else Then(EvalTo(e, i - 1, look), e.rest[i - 1].op, Eval(e.rest[i - 1].arg, look))
  }

  /** The first thing that goes wrong decides. */
  function Then(a: Value, op: Token, b: Value): Value {
    if !a.Val? then a else if !b.Val? then b else Apply2(op, a.w, b.w)
  }

  lemma {:induction false} FailureStays(e: Expr, i: nat, j: nat, look: Lookup)
    requires i <= j <= |e.rest| && !EvalTo(e, i, look).Val?
    ensures EvalTo(e, j, look) == EvalTo(e, i, look)
    decreases j
  {
    if i < j { FailureStays(e, i, j - 1, look); }
  }

  method EvaluateOperand(x: Operand, look: Lookup) returns (v: Value)
    ensures v == Eval(x, look)
    decreases x, 0
  {
    match x
    case Number(n) => v := Val(n);
    case Label(name) => v := Val(look(name));
    case Unary(op, arg) =>
      v := EvaluateOperand(arg, look);
      if v.Val? { v := Apply1(op, v.w); }
    case Nested(e) =>
      v := Evaluate(e, look);
  }

  method Evaluate(e: Expr, look: Lookup) returns (result: Value)
    ensures result == EvalExpr(e, look)
    decreases e, 1
  {
    result := EvaluateOperand(e.first, look);
    var i := 0;
    while i < |e.rest| && result.Val?
      invariant 0 <= i <= |e.rest| && result == EvalTo(e, i, look)
    {
      var b := EvaluateOperand(e.rest[i].arg, look);
      result := if b.Val? then Apply2(e.rest[i].op, result.w, b.w) else b;
      i := i + 1;
    }
    if !result.Val? { FailureStays(e, i, |e.rest|, look); }
  }

  // ---------- Printing ----------

  function Digit(d: nat): char
    requires d < 10
  { ['0', '1', '2', '3', '4', '5', '6', '7', '8', '9'][d] }

  function Decimal(n: nat): string { if n < 10 then [Digit(n)] else Decimal(n / 10) + [Digit(n % 10)] }

  /** Constants print as signed numbers. */
  function ShowNumber(n: Word): string { if n < 0x8000_0000 then Decimal(n) else "-" + Decimal(0x1_0000_0000 - n) }

  function Show(x: Operand): string
    decreases x, 0
  {
    match x
    case Number(n) => ShowNumber(n)
    case Label(name) => "LBL: " + name
    case Unary(op, arg) => [Char(op)] + Show(arg)
    case Nested(e) => ShowExpr(e)
  }

  function ShowExpr(e: Expr): string
    decreases e, |e.rest| + 1
  {
    "(" + Show(e.first) + ShowRest(e, 0) + ")"
  }

  /** The operations from the i-th on. */
  function ShowRest(e: Expr, i: nat): string
    requires i <= |e.rest|
    decreases e, |e.rest| - i
  {
    if i == |e.rest| then "" else " " + [Char(e.rest[i].op)] + " " + Show(e.rest[i].arg) + ShowRest(e, i + 1)
  }

  method PrintOperand(x: Operand) returns (out: string)
    ensures out == Show(x)
    decreases x, 0
  {
    match x
    case Number(n) => out := ShowNumber(n);
    case Label(name) => out := "LBL: " + name;
    case Unary(op, arg) =>
      var s := PrintOperand(arg);
      out := [Char(op)] + s;
    case Nested(e) =>
      out := Print(e);
  }

  /** A blank after the first operand if there is more, and between operations, but not after the last. */
  method Print(e: Expr) returns (out: string)
    ensures out == ShowExpr(e)
    decreases e, 1
  {
    var s := PrintOperand(e.first);
    out := "(" + s;
    if |e.rest| != 0 {
      out := out + " ";
    }
    var i := 0;
    while i < |e.rest|
      invariant 0 <= i <= |e.rest|
      invariant out + Tail(e, i) == "(" + Show(e.first) + ShowRest(e, 0)
    {
      hide Show, Char;
      var a := PrintOperand(e.rest[i].arg);
      var c := [Char(e.rest[i].op)];
      ghost var was := out;
      out := out + c + " " + a;
      TailStep(e, i);
      if i + 1 < |e.rest| {
        Regroup(was, c, a, " ", Tail(e, i + 1));
        out := out + " ";
      } else {
        Regroup(was, c, a, "", Tail(e, i + 1));
        assert out + "" == out;
      }
      i := i + 1;
    }
    assert out + "" == out;
    out := out + ")";
  }

  /** What is still to be printed: the blank before it is out already. */
  function Tail(e: Expr, i: nat): string
    requires i <= |e.rest|
  {
    if i == |e.rest| then "" else [Char(e.rest[i].op)] + " " + Show(e.rest[i].arg) + ShowRest(e, i + 1)
  }

  lemma TailStep(e: Expr, i: nat)
    requires i < |e.rest|
    ensures Tail(e, i) == [Char(e.rest[i].op)] + " " + Show(e.rest[i].arg) + ((if i + 1 < |e.rest| then " " else "") + Tail(e, i + 1))
  {
    hide Show, Char;
    if i + 1 < |e.rest| {
      assert ShowRest(e, i + 1) == " " + [Char(e.rest[i + 1].op)] + " " + Show(e.rest[i + 1].arg) + ShowRest(e, i + 2);
      assert ShowRest(e, i + 1) == " " + Tail(e, i + 1);
    }
  }

  lemma Regroup(out: string, c: string, a: string, blank: string, tail: string)
    ensures out + (c + " " + a + (blank + tail)) == out + c + " " + a + blank + tail
  {
  }

  // ---------- The grammar ----------

  datatype Parsed<T> = Parsed(value: T, rest: string) | NoParse | Thrown

  predicate IsDigit(c: char) { '0' <= c <= '9' }

  function Blank(c: char): bool { c == ' ' || c == '\t' }

  /** The text from the end of the line on. */
  function ToEol(s: string): (r: string)
    ensures |r| <= |s|
  { if s == "" || s[0] == '\n' || s[0] == '\r' then s else ToEol(s[1..]) }

  /** The text behind the end of a block comment. */
  function AfterBlock(s: string): (r: Option<string>)
    ensures r.Some? ==> |r.value| <= |s|
  {
    if |s| < 2 then Instruction.None else if s[..2] == "*/" then Instruction.Some(s[2..]) else AfterBlock(s[1..])
  }

  /** Blanks and comments; an unclosed block comment is an error. */
  function Skip(s: string): (r: Option<string>)
    ensures r.Some? ==> |r.value| <= |s|
    decreases |s|
  {
    if s == "" then Instruction.Some(s)
    else if Blank(s[0]) then Skip(s[1..])
    else if s[0] == '#' || (|s| >= 2 && s[..2] == "//") then Instruction.Some(ToEol(s))
    else if |s| >= 2 && s[..2] == "/*" then
      match AfterBlock(s[2..])
      case None => Instruction.None
      case Some(t) => Skip(t)
    else Instruction.Some(s)
  }

  /** The binary operators, from the loosest level to the tightest. */
  function BinaryOp(level: nat, c: char): Option<Token> {
    if level == 0 then (if c == '|' then Instruction.Some(BitOr) else Instruction.None)
    else if level == 1 then (if c == '&' then Instruction.Some(BitAnd) else Instruction.None)
    else if level == 2 then
      (if c == '+' then Instruction.Some(Plus) else if c == '-' then Instruction.Some(Minus) else Instruction.None)
    else if c == '*' then Instruction.Some(Times) else if c == '/' then Instruction.Some(Divide) else Instruction.None
  }

  function UnaryOp(c: char): Option<Token> {
    if c == '+' then Instruction.Some(Positive)
    else if c == '-' then Instruction.Some(Negative)
    else if c == '~' then Instruction.Some(BitNot)
    else Instruction.None
  }

  function DigitIn(base: nat, c: char): Option<nat> {
    if IsDigit(c) && (c as int - '0' as int) < base then Instruction.Some(c as int - '0' as int)
    else if base == 16 && 'a' <= c <= 'f' then Instruction.Some(c as int - 'a' as int + 10)
    else if base == 16 && 'A' <= c <= 'F' then Instruction.Some(c as int - 'A' as int + 10)
    else Instruction.None
  }

  /** An unsigned number of at least one digit that fits in 32 bits. */
  function ParseDigits(base: nat, s: string, acc: nat, some: bool): (r: Parsed<Word>)
    ensures r.Parsed? ==> |r.rest| <= |s|
    decreases |s|
  {
    if s != "" && DigitIn(base, s[0]).Some? then
      var n := acc * base + DigitIn(base, s[0]).value;
      if n >= 0x1_0000_0000 then NoParse else ParseDigits(base, s[1..], n, true)
    else if some && acc < 0x1_0000_0000 then Parsed(acc, s) else NoParse
  }

  predicate IdentStart(c: char) { 'a' <= c <= 'z' || 'A' <= c <= 'Z' || c == '$' || c == '_' }

  predicate IdentChar(c: char) { IdentStart(c) || IsDigit(c) }

  function IdentLength(s: string): (n: nat)
    ensures n <= |s|
  { if s != "" && IdentChar(s[0]) then 1 + IdentLength(s[1..]) else 0 }

  /** Identifiers that are not keywords. */
  function ParseLabel(s: string, reserved: set<string>): (r: Parsed<Operand>)
    ensures r.Parsed? ==> |r.rest| <= |s|
  {
    if s == "" || !IdentStart(s[0]) then NoParse
    else
      var name := s[..IdentLength(s)];
      if name in reserved then NoParse else Parsed(Label(name), s[|name|..])
  }

  function AsNumber(p: Parsed<Word>): (r: Parsed<Operand>)
    ensures r.Parsed? ==> p.Parsed? && r.rest == p.rest
  {
    match p case Parsed(n, t) => Parsed(Number(n), t) case NoParse => NoParse case Thrown => Thrown
  }

  /** After `>`, a failure is an error. */
  function Expect<T>(p: Parsed<T>): Parsed<T> { if p.NoParse? then Thrown else p }

  function ParsePrimary(s: string, reserved: set<string>): (r: Parsed<Operand>)
    ensures r.Parsed? ==> |r.rest| <= |s|
    decreases |s|, 1
  {
    match Skip(s)
    case None => Thrown
    case Some(t) =>
      if |t| >= 2 && t[..2] == "0x" then AsNumber(Expect(ParseDigits(16, t[2..], 0, false)))
      else if |t| >= 2 && t[..2] == "0b" then AsNumber(Expect(ParseDigits(2, t[2..], 0, false)))
      else if ParseLabel(t, reserved).Parsed? then ParseLabel(t, reserved)
      else if ParseDigits(10, t, 0, false).Parsed? then AsNumber(ParseDigits(10, t, 0, false))
      else if t != "" && t[0] == '(' then Closed(Expect(ParseLevel(0, t[1..], reserved)))
      else NoParse
  }

  /** The closing parenthesis. */
  function Closed(p: Parsed<Operand>): (r: Parsed<Operand>)
    ensures r.Parsed? ==> p.Parsed? && |r.rest| <= |p.rest|
  {
    if !p.Parsed? then p
    else
      match Skip(p.rest)
      case None => Thrown
      case Some(t) => if t != "" && t[0] == ')' then Parsed(p.value, t[1..]) else Thrown
  }

  function ParseUnary(s: string, reserved: set<string>): (r: Parsed<Operand>)
    ensures r.Parsed? ==> |r.rest| <= |s|
    decreases |s|, 2
  {
    match Skip(s)
    case None => Thrown
    case Some(t) =>
      if t != "" && UnaryOp(t[0]).Some? then
        match ParsePrimary(t[1..], reserved)
        case Parsed(x, u) => Parsed(Unary(UnaryOp(t[0]).value, x), u)
        case NoParse => Thrown
        case Thrown => Thrown
      else ParsePrimary(s, reserved)
  }

  /** The rules from `|` (level 0) down to unary operators (level 4). */
  function ParseLevel(level: nat, s: string, reserved: set<string>): (r: Parsed<Operand>)
    requires level <= 4
    ensures r.Parsed? ==> |r.rest| <= |s|
    decreases |s|, 7 - level
  {
    if level == 4 then ParseUnary(s, reserved)
    else
      match ParseLevel(level + 1, s, reserved)
      case Parsed(x, t) => ParseRest(level, Expr(x, []), t, reserved)
      case NoParse => NoParse
      case Thrown => Thrown
  }

  function ParseRest(level: nat, e: Expr, s: string, reserved: set<string>): (r: Parsed<Operand>)
    requires level < 4
    ensures r.Parsed? ==> |r.rest| <= |s|
    decreases |s|, 0
  {
    match Skip(s)
    case None => Thrown
    case Some(t) =>
      if t == "" || BinaryOp(level, t[0]).None? then Parsed(Nested(e), s)
      else
        match ParseLevel(level + 1, t[1..], reserved)
        case Parsed(x, u) =>
          ParseRest(level, Expr(e.first, e.rest + [Operation(BinaryOp(level, t[0]).value, x)]), u, reserved)
        case NoParse => Thrown
        case Thrown => Thrown
  }

  // ---------- Trees that print and parse ----------

  function OpLevel(op: Token): nat {
    match op
    case BitOr => 0
    case BitAnd => 1
    case Plus | Minus => 2
    case Times | Divide => 3
    case Positive | Negative | BitNot => 4
  }

  /** The level of the operators of e; a lone operand is at every level. */
  function LevelOf(e: Expr): nat { if e.rest == [] then 3 else OpLevel(e.rest[0].op) }

  predicate Uniform(e: Expr) { LevelOf(e) < 4 && forall i | 0 <= i < |e.rest| :: OpLevel(e.rest[i].op) == LevelOf(e) }

  /** What the grammar makes: one level of operators in each expression, and unary operators over
      constants and parentheses only. */
  predicate Shaped(x: Operand)
    decreases x
  {
    match x
    case Number(_) => true
    case Label(_) => false
    case Unary(op, arg) => OpLevel(op) == 4 && (arg.Number? || arg.Nested?) && Shaped(arg)
    case Nested(e) => Uniform(e) && Shaped(e.first) && forall i | 0 <= i < |e.rest| :: Shaped(e.rest[i].arg)
  }

  /** No constant that prints with a sign stands under a unary operator. */
  predicate Plain(x: Operand)
    decreases x
  {
    match x
    case Number(_) => true
    case Label(_) => true
    case Unary(op, arg) => (arg.Number? ==> arg.n < 0x8000_0000) && Plain(arg)
    case Nested(e) => Plain(e.first) && forall i | 0 <= i < |e.rest| :: Plain(e.rest[i].arg)
  }

  ghost predicate SameValue(x: Operand, y: Operand) { forall look: Lookup :: Eval(y, look) == Eval(x, look) }

  // ---------- Blanks ----------

  /** What may follow a printed operand. */
  predicate Ends(t: string) { t == "" || t[0] == ')' || t[0] == ' ' }

  lemma SkipsNothing(s: string)
    requires s != "" && !Blank(s[0]) && s[0] != '#' && (s[0] == '/' && |s| >= 2 ==> s[1] != '/' && s[1] != '*')
    ensures Skip(s) == Instruction.Some(s)
  {
    if |s| >= 2 { assert s[..2][0] == s[0] && s[..2][1] == s[1]; }
  }

  lemma SkipsBlank(s: string)
    ensures Skip(" " + s) == Skip(s)
  {
    assert (" " + s)[1..] == s;
  }

  lemma BlankPrimary(s: string, reserved: set<string>)
    ensures ParsePrimary(" " + s, reserved) == ParsePrimary(s, reserved)
  {
    hide ParseDigits, ParseLabel, ParseLevel, AsNumber, Closed, Expect;
    SkipsBlank(s);
  }

  lemma BlankUnary(s: string, reserved: set<string>)
    ensures ParseUnary(" " + s, reserved) == ParseUnary(s, reserved)
  {
    hide ParsePrimary;
    SkipsBlank(s);
    BlankPrimary(s, reserved);
  }

  // ---------- Numbers ----------

  lemma {:induction false} DecimalDigits(n: nat)
    ensures |Decimal(n)| > 0 && forall k | 0 <= k < |Decimal(n)| :: IsDigit(Decimal(n)[k])
  {
    if n >= 10 { DecimalDigits(n / 10); }
  }

  lemma DigitReads(d: nat)
    requires d < 10
    ensures IsDigit(Digit(d)) && DigitIn(10, Digit(d)) == Instruction.Some(d)
  {
  }

  lemma ReadsDigit(d: nat, t: string, acc: nat, some: bool)
    requires d < 10 && acc * 10 + d < 0x1_0000_0000
    ensures ParseDigits(10, [Digit(d)] + t, acc, some) == ParseDigits(10, t, acc * 10 + d, true)
  {
    hide Digit, DigitIn;
    DigitReads(d);
    assert ([Digit(d)] + t)[1..] == t;
  }

  lemma {:induction false} ReadsDecimal(n: nat, t: string)
    requires n < 0x1_0000_0000
    ensures ParseDigits(10, Decimal(n) + t, 0, false) == ParseDigits(10, t, n, true)
    decreases n
  {
    hide Digit, DigitIn, ParseDigits;
    if n < 10 {
      ReadsDigit(n, t, 0, false);
    } else {
      ReadsDecimal(n / 10, [Digit(n % 10)] + t);
      ReadsDigit(n % 10, t, n / 10, true);
      assert Decimal(n) + t == Decimal(n / 10) + ([Digit(n % 10)] + t);
    }
  }

  /** No numeral goes on in t. */
  predicate StopsNumber(t: string) { t == "" || (!IsDigit(t[0]) && t[0] != 'x' && t[0] != 'b') }

  lemma EndsDigits(t: string, n: nat)
    requires StopsNumber(t) && n < 0x1_0000_0000
    ensures ParseDigits(10, t, n, true) == Parsed(n, t)
  {
  }

  lemma NumberParses(n: Word, t: string, reserved: set<string>)
    requires StopsNumber(t)
    ensures |Decimal(n)| > 0 && IsDigit((Decimal(n) + t)[0])
    ensures ParsePrimary(Decimal(n) + t, reserved) == Parsed(Number(n), t)
  {
    hide ParseDigits, ParseLevel;
    var s := Decimal(n) + t;
    DecimalDigits(n);
    assert s[0] == Decimal(n)[0];
    if |s| >= 2 {
      assert s[1] == if |Decimal(n)| >= 2 then Decimal(n)[1] else t[0];
      assert s[..2][1] == s[1];
      assert "0x"[1] == 'x' && "0b"[1] == 'b';
    }
    SkipsNothing(s);
    ReadsDecimal(n, t);
    EndsDigits(t, n);
  }

  // ---------- Levels ----------

  /** No operator of the levels from lo to hi comes next. */
  predicate Quiet(lo: nat, hi: nat, t: string) {
    Skip(t).Some? && (Skip(t).value == "" || forall l | lo <= l < hi :: BinaryOp(l, Skip(t).value[0]).None?)
  }

  function Wrapped(x: Operand, n: nat): Operand { if n == 0 then x else Nested(Expr(Wrapped(x, n - 1), [])) }

  lemma {:induction false} WrappedValue(x: Operand, n: nat, look: Lookup)
    ensures Eval(Wrapped(x, n), look) == Eval(x, look)
  {
    if n > 0 {
      WrappedValue(x, n - 1, look);
      assert EvalExpr(Expr(Wrapped(x, n - 1), []), look) == Eval(Wrapped(x, n - 1), look);
    }
  }

  lemma WrappedSame(x: Operand, y: Operand, n: nat)
    requires SameValue(x, y)
    ensures SameValue(x, Wrapped(y, n))
  {
    hide Eval;
    forall look: Lookup { WrappedValue(y, n, look); }
  }

  lemma QuietRest(level: nat, e: Expr, t: string, reserved: set<string>)
    requires level < 4 && Quiet(level, level + 1, t)
    ensures ParseRest(level, e, t, reserved) == Parsed(Nested(e), t)
  {
  }

  /** Looser levels pass a tighter result on. */
  lemma {:induction false} Climbs(lo: nat, hi: nat, s: string, x: Operand, t: string, reserved: set<string>)
    requires lo <= hi <= 4 && ParseLevel(hi, s, reserved) == Parsed(x, t) && Quiet(lo, hi, t)
    ensures ParseLevel(lo, s, reserved) == Parsed(Wrapped(x, hi - lo), t)
    decreases hi - lo
  {
    hide ParseUnary, Skip, BinaryOp, ParseRest;
    if lo < hi {
      Climbs(lo + 1, hi, s, x, t, reserved);
      QuietRest(lo, Expr(Wrapped(x, hi - lo - 1), []), t, reserved);
    }
  }

  lemma {:induction false} ClimbsThrown(lo: nat, hi: nat, s: string, reserved: set<string>)
    requires lo <= hi <= 4 && ParseLevel(hi, s, reserved) == Thrown
    ensures ParseLevel(lo, s, reserved) == Thrown
    decreases hi - lo
  {
    hide ParseUnary, ParseRest;
    if lo < hi { ClimbsThrown(lo + 1, hi, s, reserved); }
  }

  // ---------- Printed operands ----------

  lemma UnaryChar(op: Token)
    requires OpLevel(op) == 4
    ensures UnaryOp(Char(op)) == Instruction.Some(op) && !Blank(Char(op)) && Char(op) != '#' && Char(op) != '/'
  {
  }

  lemma BinaryChar(op: Token, level: nat)
    requires OpLevel(op) == level < 4
    ensures BinaryOp(level, Char(op)) == Instruction.Some(op) && !Blank(Char(op)) && Char(op) != '#'
    ensures forall l | level < l < 4 :: BinaryOp(l, Char(op)).None?
  {
  }

  lemma UnaryParses(op: Token, s: string, x: Operand, t: string, reserved: set<string>)
    requires OpLevel(op) == 4 && ParsePrimary(s, reserved) == Parsed(x, t)
    ensures ParseUnary([Char(op)] + s, reserved) == Parsed(Unary(op, x), t)
  {
    hide ParsePrimary, Char, OpLevel, UnaryOp;
    UnaryChar(op);
    SkipsNothing([Char(op)] + s);
    assert ([Char(op)] + s)[1..] == s;
  }

  lemma PrimaryParses(s: string, x: Operand, t: string, reserved: set<string>)
    requires s != "" && (s[0] == '(' || IsDigit(s[0])) && ParsePrimary(s, reserved) == Parsed(x, t)
    ensures ParseUnary(s, reserved) == Parsed(x, t)
  {
    hide ParsePrimary;
    SkipsNothing(s);
  }

  lemma NegativeValue(n: Word, k: Word)
    requires n >= 0x8000_0000 && k == 0x1_0000_0000 - n
    ensures Wrap(0 - Signed(k)) == n
  {
  }

  lemma ConstantParses(n: Word, t: string, reserved: set<string>) returns (y: Operand)
    requires Ends(t)
    ensures ParseUnary(ShowNumber(n) + t, reserved) == Parsed(y, t) && SameValue(Number(n), y)
  {
    hide ParsePrimary, ParseUnary, Decimal;
    if n < 0x8000_0000 {
      NumberParses(n, t, reserved);
      PrimaryParses(Decimal(n) + t, Number(n), t, reserved);
      y := Number(n);
    } else {
      var k := 0x1_0000_0000 - n;
      NumberParses(k, t, reserved);
      UnaryParses(Negative, Decimal(k) + t, Number(k), t, reserved);
      assert "-" + Decimal(k) + t == [Char(Negative)] + (Decimal(k) + t);
      y := Unary(Negative, Number(k));
      forall look: Lookup ensures Eval(y, look) == Eval(Number(n), look) {
        NegativeValue(n, k);
        assert Eval(Number(k), look) == Val(k);
      }
    }
  }

  // ---------- Printed expressions ----------

  lemma ParenParses(s: string, x: Operand, t: string, reserved: set<string>)
    requires ParseLevel(0, s, reserved) == Parsed(x, ")" + t)
    ensures ParsePrimary("(" + s, reserved) == Parsed(x, t)
  {
    hide ParseLevel;
    var p := "(" + s;
    SkipsNothing(p);
    SkipsNothing(")" + t);
    assert p[1..] == s && (")" + t)[1..] == t;
    if |p| >= 2 { assert p[..2][0] == '(' && "0x"[0] == '0' && "0b"[0] == '0'; }
    assert ParseDigits(10, p, 0, false).NoParse?;
  }

  /** e with its first i operations replaced by those of f. */
  ghost predicate SameTo(e: Expr, i: nat, f: Expr) {
    i == |f.rest| <= |e.rest| && forall look: Lookup :: EvalTo(f, i, look) == EvalTo(e, i, look)
  }

  lemma {:induction false} PrefixValue(f: Expr, g: Expr, i: nat, look: Lookup)
    requires i <= |f.rest| <= |g.rest| && g.first == f.first && f.rest == g.rest[..|f.rest|]
    ensures EvalTo(g, i, look) == EvalTo(f, i, look)
    decreases i
  {
    if i > 0 { PrefixValue(f, g, i - 1, look); }
  }

  lemma OneMore(e: Expr, i: nat, f: Expr, y: Operand)
    requires SameTo(e, i, f) && i < |e.rest| && SameValue(e.rest[i].arg, y)
    ensures SameTo(e, i + 1, Expr(f.first, f.rest + [Operation(e.rest[i].op, y)]))
  {
    hide Apply2;
    var g, j := Expr(f.first, f.rest + [Operation(e.rest[i].op, y)]), i + 1;
    forall look: Lookup ensures EvalTo(g, j, look) == EvalTo(e, j, look) {
      PrefixValue(f, g, i, look);
      assert Eval(y, look) == Eval(e.rest[i].arg, look) && EvalTo(f, i, look) == EvalTo(e, i, look);
    }
  }

  lemma RestEnds(e: Expr, i: nat, t: string)
    requires i <= |e.rest|
    ensures Ends(ShowRest(e, i) + ")" + t) && ShowRest(e, i) + ")" + t != ""
  {
    hide Show, Char;
  }

  /** What comes after an operand is an operator of the level, or the closing parenthesis. */
  lemma RestQuiet(e: Expr, i: nat, t: string)
    requires i <= |e.rest| && Uniform(e)
    ensures Quiet(LevelOf(e) + 1, 4, ShowRest(e, i) + ")" + t)
  {
    hide Show, Char, OpLevel, BinaryOp;
    var s := ShowRest(e, i) + ")" + t;
    if i == |e.rest| {
      CloseQuiet(LevelOf(e) + 1, 4, t);
      assert s == ")" + t;
    } else {
      var c := Char(e.rest[i].op);
      var u := [c] + (" " + Show(e.rest[i].arg) + ShowRest(e, i + 1) + ")" + t);
      BinaryChar(e.rest[i].op, LevelOf(e));
      assert s == " " + u && u[1] == ' ';
      SkipsBlank(u);
      SkipsNothing(u);
    }
  }

  lemma CloseQuiet(lo: nat, hi: nat, t: string)
    ensures Quiet(lo, hi, ")" + t)
  {
    SkipsNothing(")" + t);
  }

  /** One more operation of the level. */
  lemma RestContinues(level: nat, f: Expr, op: Token, s: string, x: Operand, u: string, reserved: set<string>)
    requires OpLevel(op) == level < 4 && ParseLevel(level + 1, " " + s, reserved) == Parsed(x, u)
    ensures ParseRest(level, f, " " + [Char(op)] + " " + s, reserved) ==
            ParseRest(level, Expr(f.first, f.rest + [Operation(op, x)]), u, reserved)
  {
    hide ParseLevel, Char, OpLevel, BinaryOp;
    var v := [Char(op)] + (" " + s);
    BinaryChar(op, level);
    assert v[1] == ' ';
    SkipsNothing(v);
    SkipsBlank(v);
    assert " " + [Char(op)] + " " + s == " " + v && v[1..] == " " + s;
  }

  /** The i-th operation is parsed, and the rest is left. */
  lemma StepParses(e: Expr, i: nat, f: Expr, t: string, reserved: set<string>) returns (f': Expr)
    requires Uniform(e) && i < |e.rest| && Shaped(e.rest[i].arg) && Plain(e.rest[i].arg) && SameTo(e, i, f)
    ensures ParseRest(LevelOf(e), f, ShowRest(e, i) + ")" + t, reserved) ==
            ParseRest(LevelOf(e), f', ShowRest(e, i + 1) + ")" + t, reserved)
    ensures SameTo(e, i + 1, f')
    decreases e, |e.rest| - i, 0
  {
    hide ParseLevel, ParseUnary, Show, Char, Skip, BinaryOp, OpLevel, SameTo, Quiet;
    var level, op, arg, u := LevelOf(e), e.rest[i].op, e.rest[i].arg, ShowRest(e, i + 1) + ")" + t;
    RestEnds(e, i + 1, t);
    var y := OperandParses(arg, u, reserved);
    RestQuiet(e, i + 1, t);
    BlankUnary(Show(arg) + u, reserved);
    AtLevel4(" " + (Show(arg) + u), reserved);
    Climbs(level + 1, 4, " " + (Show(arg) + u), y, u, reserved);
    WrappedSame(arg, y, 3 - level);
    var x := Wrapped(y, 3 - level);
    RestContinues(level, f, op, Show(arg) + u, x, u, reserved);
    OneMore(e, i, f, x);
    f' := Expr(f.first, f.rest + [Operation(op, x)]);
    assert ShowRest(e, i) + ")" + t == " " + [Char(op)] + " " + (Show(arg) + u);
  }

  lemma {:induction false} RestParses(e: Expr, i: nat, f: Expr, t: string, reserved: set<string>) returns (g: Expr)
    requires Shaped(Nested(e)) && Plain(Nested(e)) && i <= |e.rest| && SameTo(e, i, f)
    ensures ParseRest(LevelOf(e), f, ShowRest(e, i) + ")" + t, reserved) == Parsed(Nested(g), ")" + t)
    ensures SameTo(e, |e.rest|, g)
    decreases e, |e.rest| - i, 1
  {
    hide ParseRest, SameTo, Quiet;
    if i == |e.rest| {
      g := f;
      CloseQuiet(LevelOf(e), LevelOf(e) + 1, t);
      assert ShowRest(e, i) + ")" + t == ")" + t;
      QuietRest(LevelOf(e), f, ")" + t, reserved);
    } else {
      var f' := StepParses(e, i, f, t, reserved);
      g := RestParses(e, i + 1, f', t, reserved);
    }
  }

  lemma AtLevel4(s: string, reserved: set<string>)
    ensures ParseLevel(4, s, reserved) == ParseUnary(s, reserved)
  {
    hide ParseUnary;
  }

  lemma FirstParses(e: Expr, t: string, reserved: set<string>) returns (f: Expr)
    requires Uniform(e) && Shaped(e.first) && Plain(e.first)
    ensures ParseLevel(LevelOf(e), Show(e.first) + ShowRest(e, 0) + ")" + t, reserved) ==
            ParseRest(LevelOf(e), f, ShowRest(e, 0) + ")" + t, reserved)
    ensures SameTo(e, 0, f)
    decreases e, |e.rest| + 1
  {
    hide ParseUnary, Show, Skip, BinaryOp, OpLevel, Quiet, ParseRest, SameTo;
    var level, u := LevelOf(e), ShowRest(e, 0) + ")" + t;
    RestEnds(e, 0, t);
    var y := OperandParses(e.first, u, reserved);
    RestQuiet(e, 0, t);
    AtLevel4(Show(e.first) + u, reserved);
    Climbs(level + 1, 4, Show(e.first) + u, y, u, reserved);
    WrappedSame(e.first, y, 3 - level);
    f := Expr(Wrapped(y, 3 - level), []);
    FirstSame(e, Wrapped(y, 3 - level));
    assert Show(e.first) + ShowRest(e, 0) + ")" + t == Show(e.first) + u;
  }

  /** The whole content of the parentheses, at its own level. */
  lemma ContentParses(e: Expr, t: string, reserved: set<string>) returns (g: Expr)
    requires Shaped(Nested(e)) && Plain(Nested(e))
    ensures ParseLevel(LevelOf(e), Show(e.first) + ShowRest(e, 0) + ")" + t, reserved) == Parsed(Nested(g), ")" + t)
    ensures SameTo(e, |e.rest|, g)
    decreases e, |e.rest| + 2
  {
    hide ParseLevel, ParseRest, Show, SameTo;
    var f := FirstParses(e, t, reserved);
    g := RestParses(e, 0, f, t, reserved);
  }

  lemma FirstSame(e: Expr, x: Operand)
    requires SameValue(e.first, x)
    ensures SameTo(e, 0, Expr(x, []))
  {
    forall look: Lookup ensures EvalTo(Expr(x, []), 0, look) == EvalTo(e, 0, look) {
      assert Eval(x, look) == Eval(e.first, look);
    }
  }

  lemma ExprParses(e: Expr, t: string, reserved: set<string>) returns (y: Operand)
    requires Shaped(Nested(e)) && Plain(Nested(e))
    ensures ParsePrimary(ShowExpr(e) + t, reserved) == Parsed(y, t) && SameValue(Nested(e), y)
    decreases e, |e.rest| + 3
  {
    hide ParseLevel, ParsePrimary, Show, Skip, BinaryOp, OpLevel, Quiet, ShowRest;
    var s := Show(e.first) + ShowRest(e, 0) + ")" + t;
    var g := ContentParses(e, t, reserved);
    var level := LevelOf(e);
    CloseQuiet(0, level, t);
    Climbs(0, level, s, Nested(g), ")" + t, reserved);
    y := Wrapped(Nested(g), level);
    SameExpr(e, g);
    WrappedSame(Nested(e), Nested(g), level);
    ParenParses(s, y, t, reserved);
    assert ShowExpr(e) + t == "(" + s;
  }

  lemma SameExpr(e: Expr, g: Expr)
    requires SameTo(e, |e.rest|, g)
    ensures SameValue(Nested(e), Nested(g))
  {
    forall look: Lookup ensures Eval(Nested(g), look) == Eval(Nested(e), look) {
      assert EvalTo(g, |e.rest|, look) == EvalTo(e, |e.rest|, look);
    }
  }

  lemma OperandParses(x: Operand, t: string, reserved: set<string>) returns (y: Operand)
    requires Shaped(x) && Plain(x) && Ends(t)
    ensures ParseUnary(Show(x) + t, reserved) == Parsed(y, t) && SameValue(x, y)
    decreases x, 0
  {
    hide ParsePrimary, ParseUnary, Uniform, Char, ShowExpr, ShowNumber, OpLevel;
    match x {
      case Number(n) => y := ConstantParses(n, t, reserved);
      case Unary(op, arg) => y := UnderUnary(op, arg, t, reserved);
      case Nested(e) =>
        y := ExprParses(e, t, reserved);
        OpensWithParen(e, t);
        PrimaryParses(ShowExpr(e) + t, y, t, reserved);
    }
  }

  lemma OpensWithParen(e: Expr, t: string)
    ensures ShowExpr(e) + t != "" && (ShowExpr(e) + t)[0] == '('
  {
    hide Show, ShowRest;
  }

  lemma UnderUnary(op: Token, arg: Operand, t: string, reserved: set<string>) returns (y: Operand)
    requires Shaped(Unary(op, arg)) && Plain(Unary(op, arg)) && Ends(t)
    ensures ParseUnary([Char(op)] + Show(arg) + t, reserved) == Parsed(y, t) && SameValue(Unary(op, arg), y)
    decreases arg, 1
  {
    hide ParsePrimary, ParseUnary, Char, ShowExpr, OpLevel, Decimal;
    var x: Operand;
    if arg.Number? {
      NumberParses(arg.n, t, reserved);
      x := arg;
    } else {
      x := ExprParses(arg.e, t, reserved);
    }
    UnaryParses(op, Show(arg) + t, x, t, reserved);
    y := Unary(op, x);
    UnarySame(op, arg, x);
    assert [Char(op)] + Show(arg) + t == [Char(op)] + (Show(arg) + t);
  }

  lemma UnarySame(op: Token, arg: Operand, x: Operand)
    requires SameValue(arg, x)
    ensures SameValue(Unary(op, arg), Unary(op, x))
  {
    hide Apply1;
    forall look: Lookup ensures Eval(Unary(op, x), look) == Eval(Unary(op, arg), look) {
      assert Eval(x, look) == Eval(arg, look);
    }
  }

  /** Printing and parsing again uses up the text and keeps the value, or the same failure, although
      the tree that comes back is deeper. */
  lemma PrintThenParse(e: Expr, reserved: set<string>) returns (y: Operand)
    requires Shaped(Nested(e)) && Plain(Nested(e))
    ensures ParseLevel(0, ShowExpr(e), reserved) == Parsed(y, "") && SameValue(Nested(e), y)
  {
    hide ParseUnary, ParseRest, ShowExpr, SameValue, Uniform;
    var x := OperandParses(Nested(e), "", reserved);
    assert Show(Nested(e)) + "" == Show(Nested(e)) == ShowExpr(e);
    AtLevel4(ShowExpr(e), reserved);
    EndQuiet();
    Climbs(0, 4, ShowExpr(e), x, "", reserved);
    WrappedSame(Nested(e), x, 4);
    y := Wrapped(x, 4);
  }

  lemma EndQuiet()
    ensures Quiet(0, 4, "")
  {
  }

  // ---------- Exactly those trees ----------

  /** The text of a unary operator over a constant that prints with a sign is an error. */
  lemma SignedBreaks(op: Token, n: Word, t: string, reserved: set<string>)
    requires OpLevel(op) == 4 && n >= 0x8000_0000
    ensures ParseUnary([Char(op)] + ShowNumber(n) + t, reserved) == Thrown
  {
    hide Decimal, Char, OpLevel, ParseLevel, UnaryOp;
    var u := ShowNumber(n) + t;
    var s := [Char(op)] + u;
    assert [Char(op)] + ShowNumber(n) + t == s;
    UnaryChar(op);
    SkipsNothing(s);
    assert s[1..] == u && u[0] == '-';
    SkipsNothing(u);
    if |u| >= 2 { assert u[..2][0] == '-' && "0x"[0] == '0' && "0b"[0] == '0'; }
    assert ParsePrimary(u, reserved).NoParse?;
  }

  lemma UnaryThrown(op: Token, s: string, reserved: set<string>)
    requires OpLevel(op) == 4 && ParsePrimary(s, reserved) == Thrown
    ensures ParseUnary([Char(op)] + s, reserved) == Thrown
  {
    hide ParsePrimary, Char, OpLevel, UnaryOp;
    UnaryChar(op);
    SkipsNothing([Char(op)] + s);
    assert ([Char(op)] + s)[1..] == s;
  }

  lemma OperandBreaks(x: Operand, t: string, reserved: set<string>)
    requires Shaped(x) && !Plain(x) && Ends(t)
    ensures ParseUnary(Show(x) + t, reserved) == Thrown
    decreases x, 0
  {
    hide ParsePrimary, ParseUnary, Uniform, Char, ShowExpr, ShowNumber, OpLevel;
    match x {
      case Number(_) =>
      case Unary(op, arg) =>
        assert [Char(op)] + Show(arg) + t == [Char(op)] + (Show(arg) + t);
        if arg.Number? && arg.n >= 0x8000_0000 {
          SignedBreaks(op, arg.n, t, reserved);
        } else if arg.Nested? {
          ExprBreaks(arg.e, t, reserved);
          UnaryThrown(op, Show(arg) + t, reserved);
        }
      case Nested(e) =>
        ExprBreaks(e, t, reserved);
        OpensWithParen(e, t);
        PrimaryThrown(ShowExpr(e) + t, reserved);
    }
  }

  lemma PrimaryThrown(s: string, reserved: set<string>)
    requires s != "" && s[0] == '(' && ParsePrimary(s, reserved) == Thrown
    ensures ParseUnary(s, reserved) == Thrown
  {
    hide ParsePrimary;
    SkipsNothing(s);
  }

  lemma ExprBreaks(e: Expr, t: string, reserved: set<string>)
    requires Shaped(Nested(e)) && !Plain(Nested(e))
    ensures ParsePrimary(ShowExpr(e) + t, reserved) == Thrown
    decreases e, |e.rest| + 2
  {
    hide ParseLevel, ParsePrimary, Show, ShowRest, OpLevel;
    var s := Show(e.first) + ShowRest(e, 0) + ")" + t;
    ContentBreaks(e, t, reserved);
    ClimbsThrown(0, LevelOf(e), s, reserved);
    ParenThrown(s, reserved);
    assert ShowExpr(e) + t == "(" + s;
  }

  lemma ParenThrown(s: string, reserved: set<string>)
    requires ParseLevel(0, s, reserved) == Thrown
    ensures ParsePrimary("(" + s, reserved) == Thrown
  {
    hide ParseLevel;
    var p := "(" + s;
    SkipsNothing(p);
    assert p[1..] == s;
    if |p| >= 2 { assert p[..2][0] == '(' && "0x"[0] == '0' && "0b"[0] == '0'; }
    assert ParseDigits(10, p, 0, false).NoParse?;
  }

  lemma ContentBreaks(e: Expr, t: string, reserved: set<string>)
    requires Shaped(Nested(e)) && !Plain(Nested(e))
    ensures ParseLevel(LevelOf(e), Show(e.first) + ShowRest(e, 0) + ")" + t, reserved) == Thrown
    decreases e, |e.rest| + 1
  {
    hide ParseLevel, ParseRest, ParseUnary, Show, ShowRest, SameTo, OpLevel;
    if !Plain(e.first) {
      var u := ShowRest(e, 0) + ")" + t;
      RestEnds(e, 0, t);
      OperandBreaks(e.first, u, reserved);
      AtLevel4(Show(e.first) + u, reserved);
      ClimbsThrown(LevelOf(e), 4, Show(e.first) + u, reserved);
      assert Show(e.first) + ShowRest(e, 0) + ")" + t == Show(e.first) + u;
    } else {
      var f := FirstParses(e, t, reserved);
      var j :| 0 <= j < |e.rest| && !Plain(e.rest[j].arg);
      RestBreaks(e, 0, j, f, t, reserved);
    }
  }

  lemma RestBreaks(e: Expr, i: nat, j: nat, f: Expr, t: string, reserved: set<string>)
    requires Shaped(Nested(e)) && i <= j < |e.rest| && !Plain(e.rest[j].arg) && SameTo(e, i, f)
    ensures ParseRest(LevelOf(e), f, ShowRest(e, i) + ")" + t, reserved) == Thrown
    decreases e, |e.rest| - i
  {
    hide ParseLevel, ParseRest, ParseUnary, Show, SameTo, OpLevel, Char;
    if Plain(e.rest[i].arg) {
      var f' := StepParses(e, i, f, t, reserved);
      RestBreaks(e, i + 1, j, f', t, reserved);
    } else {
      var arg, u := e.rest[i].arg, ShowRest(e, i + 1) + ")" + t;
      RestEnds(e, i + 1, t);
      OperandBreaks(arg, u, reserved);
      BlankUnary(Show(arg) + u, reserved);
      AtLevel4(" " + (Show(arg) + u), reserved);
      ClimbsThrown(LevelOf(e) + 1, 4, " " + (Show(arg) + u), reserved);
      RestThrown(LevelOf(e), f, e.rest[i].op, Show(arg) + u, reserved);
      assert ShowRest(e, i) + ")" + t == " " + [Char(e.rest[i].op)] + " " + (Show(arg) + u);
    }
  }

  lemma RestThrown(level: nat, f: Expr, op: Token, s: string, reserved: set<string>)
    requires OpLevel(op) == level < 4 && ParseLevel(level + 1, " " + s, reserved) == Thrown
    ensures ParseRest(level, f, " " + [Char(op)] + " " + s, reserved) == Thrown
  {
    hide ParseLevel, Char, OpLevel, BinaryOp;
    var v := [Char(op)] + (" " + s);
    BinaryChar(op, level);
    assert v[1] == ' ';
    SkipsNothing(v);
    SkipsBlank(v);
    assert " " + [Char(op)] + " " + s == " " + v && v[1..] == " " + s;
  }

  /** A tree of the grammar's shape prints and parses back to its value exactly when no constant that
      prints with a sign stands under a unary operator; otherwise the parser gives up with an error. */
  lemma PrintThenParseExactly(e: Expr, reserved: set<string>)
    requires Shaped(Nested(e))
    ensures Plain(Nested(e)) ==>
              exists y :: ParseLevel(0, ShowExpr(e), reserved) == Parsed(y, "") && SameValue(Nested(e), y)
    ensures !Plain(Nested(e)) ==> ParseLevel(0, ShowExpr(e), reserved) == Thrown
  {
    hide ParseLevel, ParseUnary, ShowExpr, SameValue, Shaped, Plain;
    if Plain(Nested(e)) {
      var y := PrintThenParse(e, reserved);
    } else {
      OperandBreaks(Nested(e), "", reserved);
      assert Show(Nested(e)) + "" == ShowExpr(e);
      AtLevel4(ShowExpr(e), reserved);
      ClimbsThrown(0, 4, ShowExpr(e), reserved);
    }
  }

  // ---------- What the grammar makes ----------

  predicate LabelFree(x: Operand)
    decreases x
  {
    match x
    case Number(_) => true
    case Label(_) => false
    case Unary(_, arg) => LabelFree(arg)
    case Nested(e) => LabelFree(e.first) && forall i | 0 <= i < |e.rest| :: LabelFree(e.rest[i].arg)
  }

  /** The trees of the grammar, labels included. */
  predicate Grammatical(x: Operand)
    decreases x
  {
    match x
    case Number(_) => true
    case Label(_) => true
    case Unary(op, arg) => OpLevel(op) == 4 && !arg.Unary? && Grammatical(arg)
    case Nested(e) => GrammaticalAt(e, LevelOf(e))
  }

  predicate GrammaticalAt(e: Expr, level: nat)
    decreases e
  {
    level < 4 && Grammatical(e.first) &&
    forall i | 0 <= i < |e.rest| :: OpLevel(e.rest[i].op) == level && Grammatical(e.rest[i].arg)
  }

  lemma {:induction false} GrammaticalShaped(x: Operand)
    requires Grammatical(x) && LabelFree(x)
    ensures Shaped(x)
    decreases x
  {
    match x
    case Number(_) =>
    case Unary(_, arg) => GrammaticalShaped(arg);
    case Nested(e) =>
      GrammaticalShaped(e.first);
      forall i | 0 <= i < |e.rest| ensures Shaped(e.rest[i].arg) { GrammaticalShaped(e.rest[i].arg); }
  }

  lemma NestedGrammatical(e: Expr, level: nat)
    requires GrammaticalAt(e, level)
    ensures Grammatical(Nested(e))
  {
  }

  lemma {:induction false} PrimaryGrammatical(s: string, reserved: set<string>)
    ensures var p := ParsePrimary(s, reserved); p.Parsed? ==> !p.value.Unary? && Grammatical(p.value)
    decreases |s|, 1
  {
    hide ParseLevel, ParseDigits;
    match Skip(s)
    case None =>
    case Some(t) =>
      if t != "" { LevelGrammatical(0, t[1..], reserved); }
  }

  lemma {:induction false} UnaryGrammatical(s: string, reserved: set<string>)
    ensures var p := ParseUnary(s, reserved); p.Parsed? ==> Grammatical(p.value)
    decreases |s|, 2
  {
    hide ParsePrimary;
    match Skip(s)
    case None =>
    case Some(t) =>
      PrimaryGrammatical(s, reserved);
      if t != "" { PrimaryGrammatical(t[1..], reserved); }
  }

  lemma {:induction false} LevelGrammatical(level: nat, s: string, reserved: set<string>)
    requires level <= 4
    ensures var p := ParseLevel(level, s, reserved); p.Parsed? ==>
            && Grammatical(p.value)
            && (level < 4 ==> p.value.Nested?)
    decreases |s|, 7 - level
  {
    hide ParseUnary, ParseRest, Grammatical;
    if level == 4 {
      UnaryGrammatical(s, reserved);
    } else {
      LevelGrammatical(level + 1, s, reserved);
      var p := ParseLevel(level + 1, s, reserved);
      if p.Parsed? { RestGrammatical(level, Expr(p.value, []), p.rest, reserved); }
    }
  }

  lemma {:induction false} RestGrammatical(level: nat, e: Expr, s: string, reserved: set<string>)
    requires level < 4 && GrammaticalAt(e, level)
    ensures var p := ParseRest(level, e, s, reserved); p.Parsed? ==> Grammatical(p.value) && p.value.Nested?
    decreases |s|, 0
  {
    hide ParseLevel, Grammatical;
    NestedGrammatical(e, level);
    match Skip(s)
    case None =>
    case Some(t) =>
      if t != "" && BinaryOp(level, t[0]).Some? {
        LevelGrammatical(level + 1, t[1..], reserved);
        var p := ParseLevel(level + 1, t[1..], reserved);
        if p.Parsed? {
          RestGrammatical(level, Expr(e.first, e.rest + [Operation(BinaryOp(level, t[0]).value, p.value)]), p.rest, reserved);
        }
      }
  }

  /** Whatever text an expression came from: if it has no labels, printing and parsing it again keeps
      its value exactly when it is plain. */
  lemma ParsePrintParse(s: string, x: Operand, t: string, reserved: set<string>)
    requires ParseLevel(0, s, reserved) == Parsed(x, t) && LabelFree(x)
    ensures Shaped(x) && x.Nested?
    ensures Plain(x) <==> exists y :: ParseLevel(0, ShowExpr(x.e), reserved) == Parsed(y, "") && SameValue(x, y)
  {
    hide ParseLevel, Shaped, Plain, SameValue, ShowExpr, Grammatical, LabelFree;
    LevelGrammatical(0, s, reserved);
    GrammaticalShaped(x);
    PrintThenParseExactly(x.e, reserved);
  }
}
