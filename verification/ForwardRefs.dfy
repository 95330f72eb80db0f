/** Uses of a label before its definition: what they look like while they wait, and what resolving
    them makes of them. */
module ForwardRefs {
  import opened Word
  import opened Instruction
  import opened Codec
  import opened Linker
  import opened Expansion
  import opened Statements

  /** A statement in slots `at` to `end`, as the assembler was given it. */
  datatype Entry = Entry(at: nat, end: nat, op: Op, rt: Reg, rs: Reg, e: ImmExpr)

  /** The pieces of a statement whose symbol is undefined. */
  function OpenCode(op: Op, rt: Reg, rs: Reg, e: ImmExpr): seq<Inst> {
    if IsJump(op) then [MakeI(op, rt, rs, e)] else WidePieces(op, rt, rs, e, false, 0)
  }

  /** The statements that may wait for a symbol. */
  predicate MayWait(op: Op, rs: Reg, e: ImmExpr) {
    && e.symbol.Some? && e.bits == 0 && (e.pcRelative ==> IsBranch(op))
    && (IsJump(op) || IsLoadStore(op) || IsBranch(op) || LoadsDirectly(op, rs) || ImmOpToOp(op).Some?)
  }

  /** The slots that wait, the last one first. */
  function UsesOf(op: Op, rs: Reg, at: nat): seq<nat> {
    if IsBranch(op) || IsJump(op) then [at]
    else if IsLoadStore(op) && rs != 0 then [at + 2, at]
    else [at + 1, at]
  }

  predicate Waits(t: seq<Slot>, e: Entry) {
    && MayWait(e.op, e.rs, e.e)
    && var code := OpenCode(e.op, e.rt, e.rs, e.e);
       e.end == e.at + |code| <= |t| && forall k | 0 <= k < |code| :: t[e.at + k] == Slot.Some(Encoded(code[k]))
  }

  function ValueOf(e: Entry, labels: Labels): Word { Total(Placed(e.e, e.at), labels) }

  predicate Done(t: seq<Slot>, e: Entry, labels: Labels) {
    e.at <= e.end <= |t| && Fulfils(t, e.at, e.end, e.op, e.rt, e.rs, ValueOf(e, labels))
  }

  // ---------- Resolving one use ----------

  function ResolveAll(t: seq<Slot>, uses: seq<nat>, labels: Labels): (r: seq<Slot>)
    requires forall k | 0 <= k < |uses| :: uses[k] < |t|
    ensures |r| == |t|
    decreases |uses|
  {
    if uses == [] then t else ResolveAll(ResolveAt(t, uses[0], labels), uses[1..], labels)
  }

  lemma {:induction false} ResolveAllAppends(t: seq<Slot>, xs: seq<nat>, ys: seq<nat>, labels: Labels)
    requires forall k | 0 <= k < |xs| :: xs[k] < |t|
    requires forall k | 0 <= k < |ys| :: ys[k] < |t|
    ensures forall k | 0 <= k < |xs + ys| :: (xs + ys)[k] < |t|
    ensures ResolveAll(t, xs + ys, labels) == ResolveAll(ResolveAll(t, xs, labels), ys, labels)
    decreases |xs|
  {
    if xs == [] {
      assert xs + ys == ys;
    } else {
      assert (xs + ys)[1..] == xs[1..] + ys;
      ResolveAllAppends(ResolveAt(t, xs[0], labels), xs[1..], ys, labels);
    }
  }

  lemma ResolveOne(t: seq<Slot>, n: nat, labels: Labels)
    requires n < |t|
    ensures ResolveAll(t, [n], labels) == ResolveAt(t, n, labels)
  {
    assert [n][1..] == [];
  }

  lemma ResolveTwo(t: seq<Slot>, n: nat, k: nat, labels: Labels)
    requires n < |t| && k < |t|
    ensures ResolveAll(t, [n, k], labels) == ResolveAt(ResolveAt(t, n, labels), k, labels)
  {
    assert [n, k][1..] == [k];
    ResolveOne(ResolveAt(t, n, labels), k, labels);
  }

  /** A use that is not a load or store changes its own slot only. */
  lemma ResolveElsewhere(t: seq<Slot>, n: nat, labels: Labels, k: nat)
    requires n < |t| && k < |t| && k != n && t[n].Some? && !IsLoadStore(t[n].value.op)
    ensures ResolveAt(t, n, labels)[k] == t[k]
  {
    assert ResolveAt(t, n, labels)[k] == SlotResolved(t, n, labels, k);
  }

  /** The slot waits with the expression e. */
  predicate Open(s: Slot, op: Op, rt: Reg, rs: Reg, e: ImmExpr) {
    IsI(s, op, rt, rs) && s.value.expr == Some(e)
  }

  lemma ResolveHere(t: seq<Slot>, n: nat, labels: Labels, e: ImmExpr)
    requires n < |t| && t[n].Some? && t[n].value.expr == Some(e) && Defined(e, labels)
    ensures ResolveAt(t, n, labels)[n] == Slot.Some(Encoded(Filled(t[n].value, Placed(e, n), labels)))
  {
    assert ResolveAt(t, n, labels)[n] == SlotResolved(t, n, labels, n);
  }

  lemma FieldFilled(i: Inst, op: Op, rt: Reg, rs: Reg, e: ImmExpr, n: nat, labels: Labels, v: int)
    requires !IsBranch(op) && !IsJump(op) && !e.pcRelative && v == Eval(e, labels)
    requires IsI(Slot.Some(i), op, rt, rs)
    ensures HoldsField(Slot.Some(Encoded(Filled(i, Placed(e, n), labels))), op, rt, rs, v)
  {
  }

  /** Resolving one half of an expression, at slot n. */
  lemma ResolveHalf(t: seq<Slot>, n: nat, labels: Labels, op: Op, rt: Reg, rs: Reg, e: ImmExpr, v: int)
    requires n < |t| && Open(t[n], op, rt, rs, e) && Defined(e, labels) && !e.pcRelative
    requires !IsBranch(op) && !IsJump(op) && v == Eval(e, labels)
    ensures HoldsField(ResolveAt(t, n, labels)[n], op, rt, rs, v)
  {
    ResolveHere(t, n, labels, e);
    FieldFilled(t[n].value, op, rt, rs, e, n, labels, v);
  }

  // ---------- A waiting constant ----------

  /** u is t except in slots a and b. */
  predicate Except(t: seq<Slot>, u: seq<Slot>, a: nat, b: nat) {
    |u| == |t| && forall k | 0 <= k < |t| && k != a && k != b :: u[k] == t[k]
  }

  lemma ResolveElse(t: seq<Slot>, n: nat, labels: Labels)
    requires n < |t| && t[n].Some? && !IsLoadStore(t[n].value.op)
    ensures Except(t, ResolveAt(t, n, labels), n, n)
  {
    forall k | 0 <= k < |t| && k != n ensures ResolveAt(t, n, labels)[k] == t[k] {
      ResolveElsewhere(t, n, labels, k);
    }
  }

  /** Slot n is resolved and holds op rt, rs with the field x; slot a still waits in the LUI of e. */
  predicate HalfWay(t: seq<Slot>, t1: seq<Slot>, n: nat, a: nat, op: Op, rt: Reg, e: ImmExpr, x: int)
    requires a < |t1| && n < |t1|
  {
    a != n && Except(t, t1, a, n) && HoldsField(t1[n], op, rt, 1, x) && Open(t1[a], LUI, 1, 0, e)
  }

  lemma SecondHalf(t: seq<Slot>, t1: seq<Slot>, n: nat, a: nat, labels: Labels, op: Op, rt: Reg, e: ImmExpr,
      high: int, low: int)
    requires a < |t1| && n < |t1| && HalfWay(t, t1, n, a, op, rt, e, low)
    requires Defined(e, labels) && !e.pcRelative && high == Eval(e, labels)
    ensures var u := ResolveAt(t1, a, labels);
            Except(t, u, a, n) && HoldsField(u[a], LUI, 1, 0, high) && HoldsField(u[n], op, rt, 1, low)
  {
    ResolveElse(t1, a, labels);
    ResolveHalf(t1, a, labels, LUI, 1, 0, e, high);
  }

  lemma FirstHalf(t: seq<Slot>, a: nat, rt: Reg, e: ImmExpr, labels: Labels, l: int)
    requires a + 1 < |t| && Defined(e, labels) && !e.pcRelative && l == Eval(Lower(e), labels)
    requires Open(t[a], LUI, 1, 0, Upper(e)) && Open(t[a + 1], ORI, rt, 1, Lower(e))
    ensures HalfWay(t, ResolveAt(t, a + 1, labels), a + 1, a, ORI, rt, Upper(e), l)
  {
    ResolveElse(t, a + 1, labels);
    ResolveHalf(t, a + 1, labels, ORI, rt, 1, Lower(e), l);
  }

  lemma HalvesResolve(t: seq<Slot>, a: nat, rt: Reg, e: ImmExpr, labels: Labels, h: int, l: int)
    requires a + 1 < |t| && Defined(e, labels) && !e.pcRelative
    requires h == Eval(Upper(e), labels) && l == Eval(Lower(e), labels)
    requires Open(t[a], LUI, 1, 0, Upper(e)) && Open(t[a + 1], ORI, rt, 1, Lower(e))
    ensures var u := ResolveAll(t, [a + 1, a], labels);
            Except(t, u, a, a + 1) && HoldsField(u[a], LUI, 1, 0, h) && HoldsField(u[a + 1], ORI, rt, 1, l)
  {
    FirstHalf(t, a, rt, e, labels, l);
    SecondHalf(t, ResolveAt(t, a + 1, labels), a + 1, a, labels, ORI, rt, Upper(e), h, l);
    ResolveTwo(t, a + 1, a, labels);
  }

  lemma ConstantResolves(t: seq<Slot>, a: nat, rt: Reg, e: ImmExpr, labels: Labels, v: Word)
    requires a + 1 < |t| && Defined(e, labels) && !e.pcRelative && v == Total(e, labels)
    requires Open(t[a], LUI, 1, 0, Upper(e)) && Open(t[a + 1], ORI, rt, 1, Lower(e))
    ensures var u := ResolveAll(t, [a + 1, a], labels); Except(t, u, a, a + 1) && JoinsUp(u[a], u[a + 1], rt, v)
  {
    var u := ResolveAll(t, [a + 1, a], labels);
    EvalUpper(e, labels, v);
    EvalLower(e, labels, v);
    HalvesResolve(t, a, rt, e, labels, Hi16(v), Lo16(v));
    HalvesJoinUp(u[a], u[a + 1], rt, v);
  }

  // ---------- A waiting access ----------

  /** The LUI that the access in slot n goes with is in slot a. */
  lemma LooksBackTo(t: seq<Slot>, n: nat, a: nat, e: ImmExpr)
    requires a < n < |t| && IsOpenLui(t[a], e.symbol)
    requires n == a + 1 || (n == a + 2 && t[a + 1].Some? && t[a + 1].value.op.ADDU?)
    ensures LookBack(t, n, e.symbol) == Some(a)
  {
  }

  lemma ResolveAccess(t: seq<Slot>, n: nat, a: nat, labels: Labels, op: Op, rt: Reg, e: ImmExpr, low: int)
    requires n < |t| && a < n && IsLoadStore(op) && Open(t[n], op, rt, 1, e) && Defined(e, labels) && !e.pcRelative
    requires low == Eval(e, labels) && LookBack(t, n, e.symbol) == Some(a)
    ensures var u := ResolveAt(t, n, labels);
            Except(t, u, a, n) && u[a] == (if Bit15(low) then Slot.Some(Bumped(t[a].value)) else t[a])
  {
    var u := ResolveAt(t, n, labels);
    forall k | 0 <= k < |t| && k != n
      ensures u[k] == if k == a && Bit15(low) then Slot.Some(Bumped(t[a].value)) else t[k]
    {
      assert u[k] == SlotResolved(t, n, labels, k);
    }
  }

  function Raised(e: ImmExpr, low: int): ImmExpr {
    if Bit15(low) then e.(offset := Signed(Wrap(e.offset + 0x1_0000))) else e
  }

  lemma EvalRaised(e: ImmExpr, labels: Labels, v: Word, low: int)
    requires Defined(e, labels) && v == Total(e, labels)
    ensures Eval(Upper(Raised(e, low)), labels) == Hi16(if Bit15(low) then Wrap(v + 0x1_0000) else v)
  {
    if Bit15(low) {
      var a := if e.symbol.None? then 0 else AddressOf(e.symbol.value, labels);
      RaisedTotal(e.offset, a, v);
    }
  }

  lemma RaisedTotal(offset: Int32, a: Word, v: Word)
    requires v == Wrap(offset + a)
    ensures Wrap(Signed(Wrap(offset + 0x1_0000)) + a) == Wrap(v + 0x1_0000)
  {
    var n := Signed(Wrap(offset + 0x1_0000));
    WrapParts(offset + a);
    SameWrap(n + a, offset + a + 0x1_0000, if n == offset + 0x1_0000 then 0 else -1);
    SameWrap(v + 0x1_0000, offset + a + 0x1_0000, -((offset + a) / 0x1_0000_0000));
  }

  lemma FirstPart(t: seq<Slot>, n: nat, a: nat, labels: Labels, op: Op, rt: Reg, e: ImmExpr, low: int)
    requires n < |t| && a < n && IsLoadStore(op) && Defined(e, labels) && !e.pcRelative && low == Eval(Lower(e), labels)
    requires Open(t[n], op, rt, 1, Lower(e)) && Open(t[a], LUI, 1, 0, Upper(e)) && LookBack(t, n, e.symbol) == Some(a)
    ensures HalfWay(t, ResolveAt(t, n, labels), n, a, op, rt, Upper(Raised(e, low)), low)
  {
    hide Lower, Upper, Eval, Defined, Open, LookBack, ResolveAt, Raised, Bit15, IsLoadStore, IsBranch, IsJump, HoldsField;
    LowerSame(e, labels);
    NoTransfer(op);
    ResolveAccess(t, n, a, labels, op, rt, Lower(e), low);
    RaisedOpen(t[a], e, low);
    ResolveHalf(t, n, labels, op, rt, 1, Lower(e), low);
  }

  lemma LowerSame(e: ImmExpr, labels: Labels)
    ensures Defined(Lower(e), labels) == Defined(e, labels)
    ensures Lower(e).symbol == e.symbol && Lower(e).pcRelative == e.pcRelative
  {
  }

  lemma RaisedOpen(s: Slot, e: ImmExpr, low: int)
    requires Open(s, LUI, 1, 0, Upper(e))
    ensures Open(if Bit15(low) then Slot.Some(Bumped(s.value)) else s, LUI, 1, 0, Upper(Raised(e, low)))
  {
  }

  lemma PartsResolve(t: seq<Slot>, n: nat, a: nat, labels: Labels, op: Op, rt: Reg, e: ImmExpr, high: int, low: int)
    requires n < |t| && a < n && IsLoadStore(op) && Defined(e, labels) && !e.pcRelative
    requires Open(t[n], op, rt, 1, Lower(e)) && Open(t[a], LUI, 1, 0, Upper(e)) && LookBack(t, n, e.symbol) == Some(a)
    requires low == Eval(Lower(e), labels) && high == Eval(Upper(Raised(e, low)), labels)
    ensures var u := ResolveAll(t, [n, a], labels);
            Except(t, u, a, n) && HoldsField(u[a], LUI, 1, 0, high) && HoldsField(u[n], op, rt, 1, low)
  {
    FirstPart(t, n, a, labels, op, rt, e, low);
    SecondHalf(t, ResolveAt(t, n, labels), n, a, labels, op, rt, Upper(Raised(e, low)), high, low);
    ResolveTwo(t, n, a, labels);
  }

  /** The load or store is resolved first, and costs its LUI the 1 that its sign extension takes
      away; then the LUI is. */
  lemma AccessResolves(t: seq<Slot>, n: nat, a: nat, labels: Labels, op: Op, rt: Reg, e: ImmExpr, v: Word)
    requires n < |t| && a < n && IsLoadStore(op) && Defined(e, labels) && !e.pcRelative && v == Total(e, labels)
    requires Open(t[n], op, rt, 1, Lower(e)) && Open(t[a], LUI, 1, 0, Upper(e)) && LookBack(t, n, e.symbol) == Some(a)
    ensures var u := ResolveAll(t, [n, a], labels); Except(t, u, a, n) && AddsUp(u[a], u[n], op, rt, v)
  {
    var u, low := ResolveAll(t, [n, a], labels), Lo16(v);
    var high := Hi16(if Bit15(low) then Wrap(v + 0x1_0000) else v);
    EvalLower(e, labels, v);
    EvalRaised(e, labels, v, low);
    PartsResolve(t, n, a, labels, op, rt, e, high, low);
    HalvesAddUp(u[a], u[n], op, rt, v, high, low);
  }

  lemma HalvesAddUp(hi: Slot, lo: Slot, op: Op, rt: Reg, v: Word, high: int, low: int)
    requires low == Lo16(v) && high == Hi16(if Bit15(low) then Wrap(v + 0x1_0000) else v)
    requires HoldsField(hi, LUI, 1, 0, high) && HoldsField(lo, op, rt, 1, low)
    ensures AddsUp(hi, lo, op, rt, v)
  {
    HalvesAdd(v, Hi16(v), low, S16(high), S16(low));
  }

  // ---------- A waiting statement ----------

  /** u is t outside the slots from a to b. */
  predicate Outside(t: seq<Slot>, u: seq<Slot>, a: nat, b: nat) {
    |u| == |t| && forall k | 0 <= k < |t| && !(a <= k < b) :: u[k] == t[k]
  }

  /** What a statement that waits finds in its slots. */
  lemma OpenPiece(t: seq<Slot>, e: Entry, k: nat, op: Op, rt: Reg, rs: Reg, x: ImmExpr)
    requires Waits(t, e) && k < |OpenCode(e.op, e.rt, e.rs, e.e)|
             && OpenCode(e.op, e.rt, e.rs, e.e)[k] == MakeI(op, rt, rs, x)
    ensures e.at + k < |t| && Open(t[e.at + k], op, rt, rs, x) && t[e.at + k].value.imm == 0
  {
  }

  /** Resolving these uses makes the statement e do what it asks for, and touches nothing else. */
  predicate Resolves(t: seq<Slot>, e: Entry, uses: seq<nat>, labels: Labels) {
    && (forall k | 0 <= k < |uses| :: uses[k] < |t|)
    && var u := ResolveAll(t, uses, labels); Outside(t, u, e.at, e.end) && Done(u, e, labels)
  }

  lemma OneFilled(t: seq<Slot>, e: Entry, labels: Labels, x: ImmExpr)
    requires Waits(t, e) && Defined(e.e, labels) && (IsBranch(e.op) || IsJump(e.op))
    requires x == if IsJump(e.op) then e.e else Lower(e.e)
    ensures var u := ResolveAll(t, [e.at], labels);
            Outside(t, u, e.at, e.end) && e.end == e.at + 1 && IsI(t[e.at], e.op, e.rt, e.rs)
            && u[e.at] == Slot.Some(Encoded(Filled(t[e.at].value, Placed(x, e.at), labels)))
  {
    OpenPiece(t, e, 0, e.op, e.rt, e.rs, x);
    ResolveOne(t, e.at, labels);
    ResolveHere(t, e.at, labels, x);
    ResolveElse(t, e.at, labels);
  }

  lemma BranchResolves(t: seq<Slot>, e: Entry, labels: Labels)
    requires Waits(t, e) && Defined(e.e, labels) && IsBranch(e.op)
    ensures Resolves(t, e, [e.at], labels)
  {
    var v := ValueOf(e, labels);
    OneFilled(t, e, labels, Lower(e.e));
    HalfPlaced(e.e, e.at, labels);
    EvalLower(Placed(e.e, e.at), labels, v);
    BranchField(v, Lo16(v));
    BranchFilled(t[e.at].value, Placed(Lower(e.e), e.at), labels, v);
  }

  lemma BranchFilled(i: Inst, e: ImmExpr, labels: Labels, v: Word)
    requires IsBranch(i.op) && S16(SignEx(Eval(e, labels)) / 4) == S16(v) / 4
    ensures Encoded(Filled(i, e, labels)).imm == S16(v) / 4
  {
  }

  lemma JumpResolves(t: seq<Slot>, e: Entry, labels: Labels)
    requires Waits(t, e) && Defined(e.e, labels) && IsJump(e.op)
    ensures Resolves(t, e, [e.at], labels)
  {
    OneFilled(t, e, labels, e.e);
    HalfPlaced(e.e, e.at, labels);
    JumpFilled(t[e.at].value, e.e, labels, ValueOf(e, labels));
    JumpDone(ResolveAll(t, [e.at], labels), e, Filled(t[e.at].value, e.e, labels), ValueOf(e, labels));
  }

  lemma JumpDone(u: seq<Slot>, e: Entry, i: Inst, v: Word)
    requires e.at < |u| && e.end == e.at + 1 && IsJump(e.op) && u[e.at] == Slot.Some(Encoded(i))
    requires i.op == e.op && i.rt == e.rt && i.rs == e.rs && Encoded(i).target == v % 0x1000_0000 / 4
    ensures Fulfils(u, e.at, e.end, e.op, e.rt, e.rs, v)
  {
  }

  lemma JumpFilled(i: Inst, e: ImmExpr, labels: Labels, v: Word)
    requires IsJump(i.op) && e.bits == 0 && v == Total(e, labels)
    ensures Encoded(Filled(i, e, labels)).target == v % 0x1000_0000 / 4
  {
    WrapSigned(v);
  }

  /** A constant that waits: LUI and ORI, and a computation on $at unless the constant goes to rt. */
  predicate ComputeOpen(t: seq<Slot>, e: Entry, rt: Reg) {
    && e.at + 1 < e.end <= |t| && Open(t[e.at], LUI, 1, 0, Upper(e.e)) && Open(t[e.at + 1], ORI, rt, 1, Lower(e.e))
    && (if LoadsDirectly(e.op, e.rs) then e.end == e.at + 2 && rt == e.rt else EndsWithOp(t, e) && rt == 1)
  }

  predicate EndsWithOp(t: seq<Slot>, e: Entry) {
    e.end == e.at + 3 <= |t| && ImmOpToOp(e.op).Some? && IsR(t[e.at + 2], ImmOpToOp(e.op).value, e.rt, e.rs, 1)
  }

  lemma ComputeOpens(t: seq<Slot>, e: Entry)
    requires Waits(t, e) && !IsBranch(e.op) && !IsJump(e.op) && !IsLoadStore(e.op)
    ensures ComputeOpen(t, e, if LoadsDirectly(e.op, e.rs) then e.rt else 1)
  {
    var code := OpenCode(e.op, e.rt, e.rs, e.e);
    if LoadsDirectly(e.op, e.rs) {
      assert code == [MakeI(LUI, 1, 0, Upper(e.e)), MakeI(ORI, e.rt, 1, Lower(e.e))];
    } else {
      assert code == [MakeI(LUI, 1, 0, Upper(e.e)), MakeI(ORI, 1, 1, Lower(e.e)), MakeR(ImmOpToOp(e.op).value, e.rt, e.rs, 1)];
      assert t[e.at + 2] == Slot.Some(Encoded(code[2]));
    }
    assert t[e.at + 0] == Slot.Some(Encoded(code[0])) && t[e.at + 1] == Slot.Some(Encoded(code[1]));
  }

  lemma ComputeDone(t: seq<Slot>, u: seq<Slot>, e: Entry, rt: Reg, v: Word)
    requires ComputeOpen(t, e, rt) && Except(t, u, e.at, e.at + 1) && JoinsUp(u[e.at], u[e.at + 1], rt, v)
    ensures Outside(t, u, e.at, e.end) && Computes(u, e.at, e.end, e.op, e.rt, e.rs, v)
  {
  }

  lemma ComputeOpenResolves(t: seq<Slot>, e: Entry, labels: Labels, rt: Reg, v: Word, u: seq<Slot>)
    requires ComputeOpen(t, e, rt) && Defined(e.e, labels) && !e.e.pcRelative && v == Total(e.e, labels)
    requires u == ResolveAll(t, [e.at + 1, e.at], labels)
    ensures Outside(t, u, e.at, e.end) && Computes(u, e.at, e.end, e.op, e.rt, e.rs, v)
  {
    ConstantResolves(t, e.at, rt, e.e, labels, v);
    ComputeDone(t, u, e, rt, v);
  }

  lemma ResolvesBy(t: seq<Slot>, e: Entry, uses: seq<nat>, labels: Labels, u: seq<Slot>, v: Word)
    requires forall k | 0 <= k < |uses| :: uses[k] < |t|
    requires u == ResolveAll(t, uses, labels) && v == ValueOf(e, labels)
    requires e.at <= e.end <= |u| && Outside(t, u, e.at, e.end) && Fulfils(u, e.at, e.end, e.op, e.rt, e.rs, v)
    ensures Resolves(t, e, uses, labels)
  {
  }

  /** What a statement that does not wait for its own place asks for. */
  lemma PlainValue(e: Entry, labels: Labels)
    requires MayWait(e.op, e.rs, e.e) && !IsBranch(e.op)
    ensures ValueOf(e, labels) == Total(e.e, labels) && !e.e.pcRelative
  {
  }

  lemma ComputeOpenFulfils(t: seq<Slot>, e: Entry, labels: Labels, rt: Reg, v: Word, u: seq<Slot>)
    requires ComputeOpen(t, e, rt) && Defined(e.e, labels) && !e.e.pcRelative && v == Total(e.e, labels)
    requires !IsBranch(e.op) && !IsJump(e.op) && !IsLoadStore(e.op)
    requires u == ResolveAll(t, [e.at + 1, e.at], labels)
    ensures e.at <= e.end <= |u| && Outside(t, u, e.at, e.end) && Fulfils(u, e.at, e.end, e.op, e.rt, e.rs, v)
  {
    ComputeOpenResolves(t, e, labels, rt, v, u);
  }

  lemma ComputeOpenDone(t: seq<Slot>, e: Entry, labels: Labels, rt: Reg)
    requires ComputeOpen(t, e, rt) && MayWait(e.op, e.rs, e.e) && Defined(e.e, labels)
    requires !IsBranch(e.op) && !IsJump(e.op) && !IsLoadStore(e.op)
    ensures Resolves(t, e, [e.at + 1, e.at], labels)
  {
    assert Resolves(t, e, [e.at + 1, e.at], labels) by {
      var u, v := ResolveAll(t, [e.at + 1, e.at], labels), ValueOf(e, labels);
      PlainValue(e, labels);
      ComputeOpenFulfils(t, e, labels, rt, v, u);
      ResolvesBy(t, e, [e.at + 1, e.at], labels, u, v);
    }
  }

  lemma ComputeResolves(t: seq<Slot>, e: Entry, labels: Labels)
    requires Waits(t, e) && Defined(e.e, labels)
    requires !IsBranch(e.op) && !IsJump(e.op) && !IsLoadStore(e.op)
    ensures Resolves(t, e, [e.at + 1, e.at], labels)
  {
    ComputeOpens(t, e);
    ComputeOpenDone(t, e, labels, if LoadsDirectly(e.op, e.rs) then e.rt else 1);
  }

  /** An access that waits, in slot n. */
  predicate AccessOpen(t: seq<Slot>, e: Entry, n: nat) {
    && e.at < n && e.end == n + 1 <= |t| && Open(t[e.at], LUI, 1, 0, Upper(e.e)) && t[e.at].value.imm == 0
    && Open(t[n], e.op, e.rt, 1, Lower(e.e))
    && if e.rs == 0 then n == e.at + 1 else n == e.at + 2 && IsR(t[e.at + 1], ADDU, 1, 1, e.rs)
  }

  lemma AccessOpens(t: seq<Slot>, e: Entry)
    requires Waits(t, e) && IsLoadStore(e.op)
    ensures AccessOpen(t, e, if e.rs != 0 then e.at + 2 else e.at + 1)
  {
    var code := OpenCode(e.op, e.rt, e.rs, e.e);
    if e.rs != 0 {
      assert code == [MakeI(LUI, 1, 0, Upper(e.e)), MakeR(ADDU, 1, 1, e.rs), MakeI(e.op, e.rt, 1, Lower(e.e))];
      assert t[e.at + 2] == Slot.Some(Encoded(code[2]));
    } else {
      assert code == [MakeI(LUI, 1, 0, Upper(e.e)), MakeI(e.op, e.rt, 1, Lower(e.e))];
    }
    assert t[e.at + 0] == Slot.Some(Encoded(code[0])) && t[e.at + 1] == Slot.Some(Encoded(code[1]));
  }

  lemma AccessLooksBack(t: seq<Slot>, e: Entry, n: nat)
    requires AccessOpen(t, e, n)
    ensures LookBack(t, n, e.e.symbol) == Some(e.at)
  {
    LooksBackTo(t, n, e.at, e.e);
  }

  lemma AccessDone(t: seq<Slot>, u: seq<Slot>, e: Entry, n: nat, v: Word)
    requires AccessOpen(t, e, n) && Except(t, u, e.at, n) && AddsUp(u[e.at], u[n], e.op, e.rt, v)
    ensures Outside(t, u, e.at, e.end) && Accesses(u, e.at, e.end, e.op, e.rt, e.rs, v)
  {
  }

  lemma AccessOpenResolves(t: seq<Slot>, e: Entry, labels: Labels, n: nat, v: Word, u: seq<Slot>)
    requires AccessOpen(t, e, n) && IsLoadStore(e.op) && Defined(e.e, labels) && !e.e.pcRelative
             && v == Total(e.e, labels)
    requires u == ResolveAll(t, [n, e.at], labels)
    ensures Outside(t, u, e.at, e.end) && Accesses(u, e.at, e.end, e.op, e.rt, e.rs, v)
  {
    AccessLooksBack(t, e, n);
    AccessResolves(t, n, e.at, labels, e.op, e.rt, e.e, v);
    AccessDone(t, u, e, n, v);
  }

  lemma AccessOpenFulfils(t: seq<Slot>, e: Entry, labels: Labels, n: nat, v: Word, u: seq<Slot>)
    requires AccessOpen(t, e, n) && IsLoadStore(e.op) && Defined(e.e, labels) && !e.e.pcRelative
             && v == Total(e.e, labels)
    requires u == ResolveAll(t, [n, e.at], labels)
    ensures e.at <= e.end <= |u| && Outside(t, u, e.at, e.end) && Fulfils(u, e.at, e.end, e.op, e.rt, e.rs, v)
  {
    AccessOpenResolves(t, e, labels, n, v, u);
  }

  lemma AccessOpenDone(t: seq<Slot>, e: Entry, labels: Labels, n: nat)
    requires AccessOpen(t, e, n) && MayWait(e.op, e.rs, e.e) && Defined(e.e, labels) && IsLoadStore(e.op)
    ensures Resolves(t, e, [n, e.at], labels)
  {
    assert Resolves(t, e, [n, e.at], labels) by {
      hide Fulfils, IsLoadStore, Outside, Open;
      var u, v := ResolveAll(t, [n, e.at], labels), ValueOf(e, labels);
      PlainValue(e, labels);
      AccessOpenFulfils(t, e, labels, n, v, u);
      ResolvesBy(t, e, [n, e.at], labels, u, v);
    }
  }

  lemma LoadStoreResolves(t: seq<Slot>, e: Entry, labels: Labels, n: nat)
    requires Waits(t, e) && Defined(e.e, labels) && IsLoadStore(e.op) && n == if e.rs != 0 then e.at + 2 else e.at + 1
    ensures Resolves(t, e, [n, e.at], labels)
  {
    AccessOpens(t, e);
    AccessOpenDone(t, e, labels, n);
  }

  /** The uses of a waiting statement are recorded in the order that resolves it. */
  lemma EntryResolves(t: seq<Slot>, e: Entry, labels: Labels)
    requires Waits(t, e) && Defined(e.e, labels)
    ensures Resolves(t, e, UsesOf(e.op, e.rs, e.at), labels)
  {
    if IsBranch(e.op) { BranchResolves(t, e, labels); }
    else if IsJump(e.op) { JumpResolves(t, e, labels); }
    else if IsLoadStore(e.op) { LoadStoreResolves(t, e, labels, if e.rs != 0 then e.at + 2 else e.at + 1); }
    else { ComputeResolves(t, e, labels); }
  }
}
