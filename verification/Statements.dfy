/** What the emitted pieces of a statement amount to, when the value of its expression is known. */
module Statements {
  import opened Word
  import opened Instruction
  import opened Codec
  import opened Linker
  import opened Expansion

  /** Slots a to b do what the statement op rt, rs, v asks for. A branch holds its displacement in
      words, and a jump its address in words within the region of its PC. For LUI, one instruction
      means that the operand went into its field. */
  predicate Fulfils(t: seq<Slot>, a: nat, b: nat, op: Op, rt: Reg, rs: Reg, v: Word)
    requires a <= b <= |t|
  {
    if IsLoadStore(op) then Accesses(t, a, b, op, rt, rs, v)
    else if IsBranch(op) then b == a + 1 && IsI(t[a], op, rt, rs) && t[a].value.imm == S16(v) / 4
    else if IsJump(op) then b == a + 1 && IsI(t[a], op, rt, rs) && t[a].value.target == v % 0x1000_0000 / 4
    else if op.LUI? then LoadsUpper(t, a, b, rt, rs, v)
    else Computes(t, a, b, op, rt, rs, v)
  }

  // ---------- What stands in the new slots ----------

  lemma EmitWrites(m: Object, i: Inst)
    requires m.next < |m.text|
    ensures Emit(m, i).text[m.next] == Slot.Some(Encoded(Settled(i, m.next, m.labels)))
  {
    assert Emit(m, i).text[m.next] == SlotAfter(m, i, m.next);
  }

  lemma SettledSame(i: Inst, n: nat, before: Labels, after: Labels)
    requires SameAddresses(before, after)
    ensures Settled(i, n, after) == Settled(i, n, before)
  {
    if i.expr.Some? {
      SameDefined(i.expr.value, before, after);
      SameDefined(Placed(i.expr.value, n), before, after);
    }
  }

  /** The first of several instructions stays as it was written. */
  lemma HeadStays(m: Object, code: seq<Inst>)
    requires m.next + |code| <= |m.text| && code != []
    ensures Alike(Emit(m, code[0]).text[m.next], EmitAll(m, code).text[m.next])
  {
    var m' := Emit(m, code[0]);
    EmitAllKeeps(m', code[1..]);
    SameAlike(m'.text[m.next], EmitAll(m', code[1..]).text[m.next], m'.labels);
  }

  lemma EmitAllSplits(m: Object, code: seq<Inst>, xs: seq<Inst>, ys: seq<Inst>)
    requires m.next + |code| <= |m.text| && code == xs + ys
    ensures EmitAll(m, code) == EmitAll(EmitAll(m, xs), ys) && SameAddresses(m.labels, EmitAll(m, xs).labels)
  {
    EmitAllAppends(m, xs, ys);
    EmitAllKeeps(m, xs);
  }

  lemma EncodedAlike(i: Inst)
    ensures Alike(Slot.Some(Encoded(i)), Slot.Some(i))
  {
  }

  lemma HeadWrites(m: Object, code: seq<Inst>, i: Inst)
    requires m.next + |code| <= |m.text| && code != [] && code[0] == i
    ensures Alike(EmitAll(m, code).text[m.next], Slot.Some(Settled(i, m.next, m.labels)))
  {
    HeadStays(m, code);
    EmitWrites(m, i);
    EncodedAlike(Settled(i, m.next, m.labels));
  }

  lemma LaterWrites(m: Object, code: seq<Inst>, i: Inst, before: Labels)
    requires m.next + |code| <= |m.text| && code != [] && code[0] == i && SameAddresses(before, m.labels)
    ensures Alike(EmitAll(m, code).text[m.next], Slot.Some(Settled(i, m.next, before)))
  {
    HeadWrites(m, code, i);
    SettledSame(i, m.next, before, m.labels);
  }

  lemma EmitAllWrites(m: Object, code: seq<Inst>, k: nat)
    requires m.next + |code| <= |m.text| && k < |code|
    ensures Alike(EmitAll(m, code).text[m.next + k], Slot.Some(Settled(code[k], m.next + k, m.labels)))
  {
    WritesAfter(m, code, code[..k], code[k..], code[k], m.next + k);
  }

  lemma WritesAfter(m: Object, code: seq<Inst>, xs: seq<Inst>, ys: seq<Inst>, i: Inst, n: nat)
    requires m.next + |code| <= |m.text| && code == xs + ys && ys != [] && ys[0] == i && n == m.next + |xs|
    ensures Alike(EmitAll(m, code).text[n], Slot.Some(Settled(i, n, m.labels)))
  {
    EmitAllSplits(m, code, xs, ys);
    LaterWrites(EmitAll(m, xs), ys, i, m.labels);
  }

  // ---------- Halves of a known value ----------

  lemma SettledField(op: Op, rt: Reg, rs: Reg, e: ImmExpr, n: nat, labels: Labels, v: int)
    requires !IsBranch(op) && !IsJump(op) && Defined(e, labels) && !e.pcRelative && v == Eval(e, labels)
    ensures Settled(MakeI(op, rt, rs, e), n, labels) == MakeI(op, rt, rs, e).(imm := S16(v))
  {
  }

  lemma EvalUpper(e: ImmExpr, labels: Labels, v: Word)
    requires v == Total(e, labels)
    ensures Eval(Upper(e), labels) == Hi16(v) && Defined(Upper(e), labels) == Defined(e, labels)
  {
  }

  lemma EvalLower(e: ImmExpr, labels: Labels, v: Word)
    requires v == Total(e, labels)
    ensures Eval(Lower(e), labels) == Lo16(v) && Defined(Lower(e), labels) == Defined(e, labels)
  {
  }

  /** The slot holds op rt, rs with the field x. */
  predicate HoldsField(s: Slot, op: Op, rt: Reg, rs: Reg, x: int) { IsI(s, op, rt, rs) && s.value.imm == S16(x) }

  /** Emitting one half of a known expression, as piece k of code. */
  lemma PieceHolds(m: Object, code: seq<Inst>, k: nat, op: Op, rt: Reg, rs: Reg, e: ImmExpr, v: int)
    requires m.next + |code| <= |m.text| && k < |code| && code[k] == MakeI(op, rt, rs, e)
    requires !IsBranch(op) && !IsJump(op) && Defined(e, m.labels) && !e.pcRelative && v == Eval(e, m.labels)
    ensures HoldsField(EmitAll(m, code).text[m.next + k], op, rt, rs, v)
  {
    EmitAllWrites(m, code, k);
    SettledField(op, rt, rs, e, m.next + k, m.labels, v);
  }

  // ---------- Constants in registers ----------

  lemma HighTakes(s: Slot, rt: Reg, v: Word)
    requires HoldsField(s, LUI, rt, 0, Hi16(v)) && Lo16(v) == 0
    ensures Takes(s, LUI, rt, 0, v)
  {
    FieldHolds(Hi16(v));
  }

  lemma LowTakes(s: Slot, rt: Reg, v: Word)
    requires HoldsField(s, ORI, rt, 0, Lo16(v)) && Hi16(v) == 0
    ensures Takes(s, ORI, rt, 0, v)
  {
    FieldHolds(Lo16(v));
  }

  lemma HalvesJoinUp(hi: Slot, lo: Slot, rt: Reg, v: Word)
    requires HoldsField(hi, LUI, 1, 0, Hi16(v)) && HoldsField(lo, ORI, rt, 1, Lo16(v))
    ensures JoinsUp(hi, lo, rt, v)
  {
    FieldHolds(Hi16(v));
    FieldHolds(Lo16(v));
  }

  lemma HighFulfilled(m: Object, rt: Reg, e: ImmExpr, v: Word, code: seq<Inst>)
    requires Defined(e, m.labels) && !e.pcRelative && v == Total(e, m.labels) && Lo16(v) == 0
    requires code == [MakeI(LUI, rt, 0, Upper(e))] && m.next + 1 <= |m.text|
    ensures LoadsValue(EmitAll(m, code).text, m.next, m.next + 1, rt, v)
  {
    EvalUpper(e, m.labels, v);
    PieceHolds(m, code, 0, LUI, rt, 0, Upper(e), Hi16(v));
    HighTakes(EmitAll(m, code).text[m.next], rt, v);
  }

  lemma LowFulfilled(m: Object, rt: Reg, e: ImmExpr, v: Word, code: seq<Inst>)
    requires Defined(e, m.labels) && !e.pcRelative && v == Total(e, m.labels) && Hi16(v) == 0
    requires code == [MakeI(ORI, rt, 0, Lower(e))] && m.next + 1 <= |m.text|
    ensures LoadsValue(EmitAll(m, code).text, m.next, m.next + 1, rt, v)
  {
    EvalLower(e, m.labels, v);
    PieceHolds(m, code, 0, ORI, rt, 0, Lower(e), Lo16(v));
    LowTakes(EmitAll(m, code).text[m.next], rt, v);
  }

  lemma HalvesFulfilled(m: Object, rt: Reg, e: ImmExpr, v: Word, code: seq<Inst>)
    requires Defined(e, m.labels) && !e.pcRelative && v == Total(e, m.labels)
    requires code == [MakeI(LUI, 1, 0, Upper(e)), MakeI(ORI, rt, 1, Lower(e))] && m.next + 2 <= |m.text|
    ensures LoadsValue(EmitAll(m, code).text, m.next, m.next + 2, rt, v)
  {
    var t := EmitAll(m, code).text;
    EvalUpper(e, m.labels, v);
    EvalLower(e, m.labels, v);
    PieceHolds(m, code, 0, LUI, 1, 0, Upper(e), Hi16(v));
    PieceHolds(m, code, 1, ORI, rt, 1, Lower(e), Lo16(v));
    HalvesJoinUp(t[m.next], t[m.next + 1], rt, v);
  }

  lemma ValueFulfilled(m: Object, rt: Reg, e: ImmExpr, v: Word, code: seq<Inst>)
    requires Defined(e, m.labels) && !e.pcRelative && v == Total(e, m.labels)
    requires code == ValuePieces(rt, e, true, Signed(v)) && m.next + |code| <= |m.text|
    ensures LoadsValue(EmitAll(m, code).text, m.next, m.next + |code|, rt, v)
  {
    WrapSigned(v);
    if Lo16(v) == 0 { HighFulfilled(m, rt, e, v, code); }
    else if Hi16(v) == 0 { LowFulfilled(m, rt, e, v, code); }
    else { HalvesFulfilled(m, rt, e, v, code); }
  }

  // ---------- Single instructions ----------

  lemma SmallTakes(s: Slot, op: Op, rt: Reg, rs: Reg, v: Word)
    requires HoldsField(s, op, rt, rs, Signed(v)) && !op.LUI?
    requires if ExtendsSign(op) then -0x8000 <= Signed(v) < 0x8000 else 0 <= Signed(v) < 0x1_0000
    ensures Takes(s, op, rt, rs, v)
  {
  }

  lemma UpperTakes(s: Slot, rt: Reg, rs: Reg, v: Word)
    requires HoldsField(s, LUI, rt, rs, v) && v < 0x1_0000
    ensures Takes(s, LUI, rt, rs, v * 0x1_0000)
  {
    FieldHolds(v);
  }

  lemma UpperFulfilled(m: Object, rt: Reg, rs: Reg, e: ImmExpr, v: Word, code: seq<Inst>)
    requires Defined(e, m.labels) && !e.pcRelative && e.bits == 0 && v == Total(e, m.labels)
    requires FitsField(LUI, e, m.labels) && code == [MakeI(LUI, rt, rs, e)] && m.next + 1 <= |m.text|
    ensures LoadsUpper(EmitAll(m, code).text, m.next, m.next + 1, rt, rs, v)
  {
    PieceHolds(m, code, 0, LUI, rt, rs, e, Signed(v));
    UpperTakes(EmitAll(m, code).text[m.next], rt, rs, v);
  }

  lemma SingleFulfilled(m: Object, op: Op, rt: Reg, rs: Reg, e: ImmExpr, v: Word, code: seq<Inst>)
    requires Defined(e, m.labels) && !e.pcRelative && e.bits == 0 && v == Total(e, m.labels)
    requires !IsBranch(op) && !IsJump(op) && !op.LUI? && FitsField(op, e, m.labels)
    requires code == [MakeI(op, rt, rs, e)] && m.next + 1 <= |m.text|
    ensures Takes(EmitAll(m, code).text[m.next], op, rt, rs, v)
  {
    PieceHolds(m, code, 0, op, rt, rs, e, Signed(v));
    SmallTakes(EmitAll(m, code).text[m.next], op, rt, rs, v);
  }

  // ---------- Computations ----------

  lemma ComputeFulfilled(m: Object, op: Op, rt: Reg, rs: Reg, e: ImmExpr, v: Word, code: seq<Inst>)
    requires Defined(e, m.labels) && !e.pcRelative && v == Total(e, m.labels)
    requires LoadsDirectly(op, rs) || ImmOpToOp(op).Some?
    requires code == ComputePieces(op, rt, rs, e, true, Signed(v)) && m.next + |code| <= |m.text|
    ensures Computes(EmitAll(m, code).text, m.next, m.next + |code|, op, rt, rs, v)
  {
    if LoadsDirectly(op, rs) {
      ValueFulfilled(m, rt, e, v, code);
    } else {
      var value, last := ValuePieces(1, e, true, Signed(v)), MakeR(ImmOpToOp(op).value, rt, rs, 1);
      ValueFulfilled(m, 1, e, v, value);
      ThenLast(m, value, last, code, op, rt, rs, v);
    }
  }

  lemma ThenLast(m: Object, value: seq<Inst>, last: Inst, code: seq<Inst>, op: Op, rt: Reg, rs: Reg, v: Word)
    requires !LoadsDirectly(op, rs) && ImmOpToOp(op).Some? && last == MakeR(ImmOpToOp(op).value, rt, rs, 1)
    requires code == value + [last] && value != [] && m.next + |code| <= |m.text|
    requires LoadsValue(EmitAll(m, value).text, m.next, m.next + |value|, 1, v)
    ensures Computes(EmitAll(m, code).text, m.next, m.next + |code|, op, rt, rs, v)
  {
    EmitAllAppends(m, value, [last]);
    ThroughAt(EmitAll(m, value), EmitAll(m, code), m.next, op, rt, rs, v, last);
  }

  lemma ThroughAt(m1: Object, r: Object, a: nat, op: Op, rt: Reg, rs: Reg, v: Word, last: Inst)
    requires !LoadsDirectly(op, rs) && ImmOpToOp(op).Some? && last == MakeR(ImmOpToOp(op).value, rt, rs, 1)
    requires a < m1.next < |m1.text| && LoadsValue(m1.text, a, m1.next, 1, v) && r == EmitAll(m1, [last])
    ensures Computes(r.text, a, m1.next + 1, op, rt, rs, v)
  {
    OneMore(m1, last, r);
    ComputesBy(m1, r, a, op, rt, rs, v, last);
  }

  predicate OneMoreThan(m: Object, r: Object, last: Inst) {
    && |r.text| == |m.text| && m.next < |m.text|
    && Alike(r.text[m.next], Slot.Some(last))
    && forall k | 0 <= k < m.next :: Alike(m.text[k], r.text[k])
  }

  /** Emitting one more instruction. */
  lemma OneMore(m: Object, last: Inst, r: Object)
    requires m.next < |m.text| && last.expr.None? && r == EmitAll(m, [last])
    ensures OneMoreThan(m, r, last)
  {
    EmitAllWrites(m, [last], 0);
    EmitAllKeeps(m, [last]);
    forall k | 0 <= k < m.next ensures Alike(m.text[k], r.text[k]) {
      SameAlike(m.text[k], r.text[k], m.labels);
    }
  }

  lemma ComputesBy(m: Object, r: Object, a: nat, op: Op, rt: Reg, rs: Reg, v: Word, last: Inst)
    requires a < m.next < |m.text| && LoadsValue(m.text, a, m.next, 1, v)
    requires !LoadsDirectly(op, rs) && ImmOpToOp(op).Some?
    requires last == MakeR(ImmOpToOp(op).value, rt, rs, 1) && OneMoreThan(m, r, last)
    ensures Computes(r.text, a, m.next + 1, op, rt, rs, v)
  {
    LoadsValueStays(m.text, r.text, a, m.next, 1, v);
  }

  // ---------- Accesses ----------

  lemma AccessFulfilled(m: Object, op: Op, rt: Reg, rs: Reg, e: ImmExpr, v: Word, code: seq<Inst>)
    requires IsLoadStore(op) && !(-0x8000 <= Signed(v) < 0x8000)
    requires code == AccessPieces(op, rt, rs, e, true, Signed(v)) && m.next + |code| <= |m.text|
    ensures Accesses(EmitAll(m, code).text, m.next, m.next + |code|, op, rt, rs, v)
  {
    WrapSigned(v);
    var high, low := HighPart(Signed(v)), LowPart(Signed(v));
    KnownHalves(v, Hi16(v), low, high);
    AccessParts(m, op, rt, rs, v, code, high, low);
  }

  lemma ConstEval(v: int, labels: Labels)
    requires 0 <= v < 0x1_0000
    ensures Eval(Const(v), labels) == v && Eval(Lower(Const(v)), labels) == v
  {
  }

  lemma PartsAddUp(hi: Slot, lo: Slot, op: Op, rt: Reg, v: Word, high: int, low: int)
    requires 0 <= high < 0x1_0000 && high * 0x1_0000 + S16(low) == v
    requires HoldsField(hi, LUI, 1, 0, high) && HoldsField(lo, op, rt, 1, low)
    ensures AddsUp(hi, lo, op, rt, v)
  {
    FieldHolds(high);
  }

  lemma AccessParts(m: Object, op: Op, rt: Reg, rs: Reg, v: Word, code: seq<Inst>, high: int, low: int)
    requires IsLoadStore(op) && 0 <= high < 0x1_0000 && 0 <= low < 0x1_0000 && high * 0x1_0000 + S16(low) == v
    requires code == [MakeI(LUI, 1, 0, Const(high))] + Indexed(rs) + [MakeI(op, rt, 1, Lower(Const(low)))]
    requires m.next + |code| <= |m.text|
    ensures Accesses(EmitAll(m, code).text, m.next, m.next + |code|, op, rt, rs, v)
  {
    ConstEval(high, m.labels);
    ConstEval(low, m.labels);
    if rs == 0 {
      AccessPlain(m, op, rt, Const(high), Lower(Const(low)), v, code, high, low);
    } else {
      AccessIndexed(m, op, rt, rs, Const(high), Lower(Const(low)), v, code, high, low);
    }
  }

  lemma AccessPlain(m: Object, op: Op, rt: Reg, hi: ImmExpr, lo: ImmExpr, v: Word, code: seq<Inst>, high: int, low: int)
    requires IsLoadStore(op) && 0 <= high < 0x1_0000 && high * 0x1_0000 + S16(low) == v
    requires Defined(hi, m.labels) && Eval(hi, m.labels) == high && !hi.pcRelative
    requires Defined(lo, m.labels) && Eval(lo, m.labels) == low && !lo.pcRelative
    requires code == [MakeI(LUI, 1, 0, hi), MakeI(op, rt, 1, lo)] && m.next + 2 <= |m.text|
    ensures Accesses(EmitAll(m, code).text, m.next, m.next + 2, op, rt, 0, v)
  {
    var t := EmitAll(m, code).text;
    PieceHolds(m, code, 0, LUI, 1, 0, hi, high);
    PieceHolds(m, code, 1, op, rt, 1, lo, low);
    PartsAddUp(t[m.next], t[m.next + 1], op, rt, v, high, low);
  }

  lemma NoTransfer(op: Op)
    requires IsLoadStore(op) || op.LUI?
    ensures !IsBranch(op) && !IsJump(op)
  {
  }

  lemma AccessIndexed(m: Object, op: Op, rt: Reg, rs: Reg, hi: ImmExpr, lo: ImmExpr, v: Word, code: seq<Inst>,
      high: int, low: int)
    requires IsLoadStore(op) && 0 <= high < 0x1_0000 && high * 0x1_0000 + S16(low) == v && rs != 0
    requires Defined(hi, m.labels) && Eval(hi, m.labels) == high && !hi.pcRelative
    requires Defined(lo, m.labels) && Eval(lo, m.labels) == low && !lo.pcRelative
    requires code == [MakeI(LUI, 1, 0, hi), MakeR(ADDU, 1, 1, rs), MakeI(op, rt, 1, lo)] && m.next + 3 <= |m.text|
    ensures Accesses(EmitAll(m, code).text, m.next, m.next + 3, op, rt, rs, v)
  {
    hide Eval, Defined, IsLoadStore, AddsUp, S16, IsBranch, IsJump;
    NoTransfer(op);
    NoTransfer(LUI);
    var t := EmitAll(m, code).text;
    PieceHolds(m, code, 0, LUI, 1, 0, hi, high);
    EmitAllWrites(m, code, 1);
    PieceHolds(m, code, 2, op, rt, 1, lo, low);
    PartsAddUp(t[m.next], t[m.next + 2], op, rt, v, high, low);
  }

  // ---------- Branches ----------

  /** Whether or not the displacement was cut to its low half first, the field is the same. */
  lemma BranchField(v: Word, whole: Int32)
    requires whole == Lo16(v) || (whole == Signed(v) && -0x8000 <= whole < 0x1_0000)
    ensures S16(SignEx(whole) / 4) == S16(v) / 4
  {
    SignExIs(v, whole);
    QuarterFits(S16(v));
  }

  lemma SignExIs(v: Word, whole: Int32)
    requires whole == Lo16(v) || (whole == Signed(v) && -0x8000 <= whole < 0x1_0000)
    ensures SignEx(whole) == S16(v)
  {
  }

  lemma QuarterFits(y: Int16)
    ensures S16(y / 4) == y / 4
  {
  }

  /** The expression of a branch was made at its place in the text, or a few instructions before. */
  predicate Near(e: ImmExpr, n: nat) { e.pcRelative ==> Wrap(e.offset + PC(n)) <= 0x8000 }

  lemma NearWhole(e: ImmExpr, n: nat, labels: Labels, v: Word)
    requires Near(e, n) && Defined(e, labels) && v == Total(Placed(e, n), labels)
    requires 0 <= Signed(Total(e, labels)) < 0x1_0000
    ensures -0x8000 <= Signed(v) < 0x1_0000
  {
    if e.pcRelative {
      var a := if e.symbol.None? then 0 else AddressOf(e.symbol.value, labels);
      NearDifference(e.offset, PC(n), a, Total(e, labels), v);
    }
  }

  lemma NearDifference(offset: Int32, pc: Word, a: Word, t: Word, v: Word)
    requires Wrap(offset + pc) <= 0x8000 && t == Wrap(offset + a) && t < 0x1_0000
    requires v == Wrap(Signed(Wrap(0x1_0000_0000 - pc)) + a)
    ensures -0x8000 <= Signed(v) < 0x1_0000
  {
    hide Wrap, Signed;
    var d := Wrap(offset + pc);
    WrapParts(offset + pc);
    WrapParts(offset + a);
    SameWrap(t - d, a - pc, (offset + pc) / 0x1_0000_0000 - (offset + a) / 0x1_0000_0000);
    NegatedPc(pc, a);
    SmallWrap(t - d);
  }

  lemma SmallWrap(x: int)
    requires -0x8000 <= x < 0x1_0000
    ensures Signed(Wrap(x)) == x
  {
  }

  lemma NegatedPc(pc: Word, a: Word)
    ensures Wrap(Signed(Wrap(0x1_0000_0000 - pc)) + a) == Wrap(a - pc)
  {
    var n := Signed(Wrap(0x1_0000_0000 - pc));
    SameWrap(n + a, a - pc, if n + pc == 0 then 0 else 1);
  }

  lemma BranchSettled(op: Op, rt: Reg, rs: Reg, e: ImmExpr, n: nat, labels: Labels, x: Int32)
    requires IsBranch(op) && Defined(e, labels) && x == Eval(Placed(e, n), labels)
    ensures var i := Settled(MakeI(op, rt, rs, e), n, labels);
            i.op == op && i.rt == rt && i.rs == rs && i.imm == S16(SignEx(x) / 4)
  {
  }

  lemma BranchFulfilled(m: Object, op: Op, rt: Reg, rs: Reg, e: ImmExpr, code: seq<Inst>, v: Word, x: Int32)
    requires IsBranch(op) && Defined(e, m.labels) && x == Eval(Placed(e, m.next), m.labels)
    requires S16(SignEx(x) / 4) == S16(v) / 4
    requires code == [MakeI(op, rt, rs, e)] && m.next + 1 <= |m.text|
    ensures Fulfils(EmitAll(m, code).text, m.next, m.next + 1, op, rt, rs, v)
  {
    EmitAllWrites(m, code, 0);
    BranchSettled(op, rt, rs, e, m.next, m.labels, x);
    BranchFulfils(EmitAll(m, code).text, m.next, Settled(MakeI(op, rt, rs, e), m.next, m.labels), op, rt, rs, v);
  }

  lemma BranchFulfils(t: seq<Slot>, a: nat, i: Inst, op: Op, rt: Reg, rs: Reg, v: Word)
    requires a < |t| && Alike(t[a], Slot.Some(i)) && IsBranch(op)
    requires i.op == op && i.rt == rt && i.rs == rs && i.imm == S16(v) / 4
    ensures Fulfils(t, a, a + 1, op, rt, rs, v)
  {
  }

  // ---------- Every statement whose expression is known ----------

  /** What the grammar asks of an immediate statement at slot n; a wide constant in a trap or cache
      instruction ends the assembly. */
  predicate Sound(op: Op, rs: Reg, e: ImmExpr, n: nat, labels: Labels) {
    && e.bits == 0 && !IsJump(op)
    && (if IsBranch(op) then Near(e, n) else !e.pcRelative)
    && (Single(op, e, labels) || IsLoadStore(op) || IsBranch(op) || LoadsDirectly(op, rs) || ImmOpToOp(op).Some?)
  }

  lemma HalfPlaced(e: ImmExpr, n: nat, labels: Labels)
    ensures Placed(Lower(e), n) == Lower(Placed(e, n)) && Defined(Lower(e), labels) == Defined(e, labels)
    ensures !e.pcRelative ==> Placed(e, n) == e
  {
  }

  lemma KnownBranchWhole(m: Object, op: Op, rt: Reg, rs: Reg, e: ImmExpr, code: seq<Inst>, v: Word)
    requires IsBranch(op) && e.bits == 0 && Near(e, m.next) && Defined(e, m.labels) && FitsField(op, e, m.labels)
    requires code == [MakeI(op, rt, rs, e)] && v == Total(Placed(e, m.next), m.labels) && m.next + 1 <= |m.text|
    ensures Fulfils(EmitAll(m, code).text, m.next, m.next + 1, op, rt, rs, v)
  {
    NearWhole(e, m.next, m.labels, v);
    BranchField(v, Signed(v));
    BranchFulfilled(m, op, rt, rs, e, code, v, Signed(v));
  }

  lemma KnownBranchHalf(m: Object, op: Op, rt: Reg, rs: Reg, e: ImmExpr, code: seq<Inst>, v: Word)
    requires IsBranch(op) && Defined(e, m.labels)
    requires code == [MakeI(op, rt, rs, Lower(e))] && v == Total(Placed(e, m.next), m.labels) && m.next + 1 <= |m.text|
    ensures Fulfils(EmitAll(m, code).text, m.next, m.next + 1, op, rt, rs, v)
  {
    HalfPlaced(e, m.next, m.labels);
    EvalLower(Placed(e, m.next), m.labels, v);
    BranchField(v, Lo16(v));
    BranchFulfilled(m, op, rt, rs, Lower(e), code, v, Lo16(v));
  }

  lemma KnownBranch(m: Object, op: Op, rt: Reg, rs: Reg, e: ImmExpr, code: seq<Inst>, v: Word)
    requires IsBranch(op) && e.bits == 0 && Near(e, m.next) && Defined(e, m.labels)
    requires code == Pieces(op, rt, rs, e, m.labels) && v == Total(Placed(e, m.next), m.labels)
    requires m.next + |code| <= |m.text|
    ensures Fulfils(EmitAll(m, code).text, m.next, m.next + |code|, op, rt, rs, v)
  {
    hide Fulfils, EmitAll, Near, Total, Placed, Defined, FitsField, IsBranch, Pieces;
    BranchPieces(op, rt, rs, e, m.labels);
    if FitsField(op, e, m.labels) {
      KnownBranchWhole(m, op, rt, rs, e, code, v);
    } else {
      KnownBranchHalf(m, op, rt, rs, e, code, v);
    }
  }

  lemma NoAccess(op: Op)
    requires IsBranch(op)
    ensures !IsLoadStore(op)
  {
  }

  lemma BranchPieces(op: Op, rt: Reg, rs: Reg, e: ImmExpr, labels: Labels)
    requires IsBranch(op) && Defined(e, labels)
    ensures Pieces(op, rt, rs, e, labels) == [MakeI(op, rt, rs, if FitsField(op, e, labels) then e else Lower(e))]
  {
    hide FitsField, Defined, IsBranch, IsLoadStore, GpReaches, AccessPieces, ComputePieces, KnownValue, Pieces, SpecialCase;
    NoAccess(op);
    if FitsField(op, e, labels) { SinglePieces(op, rt, rs, e, labels); } else { PiecesWide(op, rt, rs, e, labels); }
  }

  lemma KnownWide(m: Object, op: Op, rt: Reg, rs: Reg, e: ImmExpr, code: seq<Inst>, v: Word)
    requires Sound(op, rs, e, m.next, m.labels) && Defined(e, m.labels) && !IsBranch(op) && !FitsField(op, e, m.labels)
    requires code == WidePieces(op, rt, rs, e, true, Signed(v)) && v == Total(e, m.labels)
    requires m.next + |code| <= |m.text|
    ensures Fulfils(EmitAll(m, code).text, m.next, m.next + |code|, op, rt, rs, v)
  {
    if IsLoadStore(op) {
      AccessFulfilled(m, op, rt, rs, e, v, code);
    } else if op.LUI? {
      WideUpper(m, rt, rs, e, code, v);
    } else {
      ComputeFulfilled(m, op, rt, rs, e, v, code);
    }
  }

  lemma WideUpper(m: Object, rt: Reg, rs: Reg, e: ImmExpr, code: seq<Inst>, v: Word)
    requires rs == 0 && !e.pcRelative && e.bits == 0 && Defined(e, m.labels) && !FitsField(LUI, e, m.labels)
    requires code == ValuePieces(rt, e, true, Signed(v)) && v == Total(e, m.labels)
    requires m.next + |code| <= |m.text|
    ensures LoadsUpper(EmitAll(m, code).text, m.next, m.next + |code|, rt, rs, v)
  {
    hide ValuePieces, LoadsValue;
    ValueFulfilled(m, rt, e, v, code);
  }

  lemma KnownSingle(m: Object, op: Op, rt: Reg, rs: Reg, e: ImmExpr, code: seq<Inst>, v: Word)
    requires Sound(op, rs, e, m.next, m.labels) && Defined(e, m.labels) && !IsBranch(op) && FitsField(op, e, m.labels)
    requires code == [MakeI(op, rt, rs, e)] && v == Total(e, m.labels) && m.next + 1 <= |m.text|
    ensures Fulfils(EmitAll(m, code).text, m.next, m.next + 1, op, rt, rs, v)
  {
    if op.LUI? {
      UpperFulfilled(m, rt, rs, e, v, code);
    } else {
      SingleFulfilled(m, op, rt, rs, e, v, code);
    }
  }

  /** A statement whose expression has a value is expanded to instructions that use that value. */
  lemma KnownFulfilled(m: Object, op: Op, rt: Reg, rs: Reg, e: ImmExpr, code: seq<Inst>, v: Word)
    requires Sound(op, rs, e, m.next, m.labels) && Defined(e, m.labels) && !ReachedByGp(op, rs, e, m.labels)
    requires code == Pieces(op, rt, rs, e, m.labels) && v == Total(Placed(e, m.next), m.labels)
    requires m.next + |code| <= |m.text|
    ensures Fulfils(EmitAll(m, code).text, m.next, m.next + |code|, op, rt, rs, v)
  {
    HalfPlaced(e, m.next, m.labels);
    if IsBranch(op) {
      KnownBranch(m, op, rt, rs, e, code, v);
    } else if FitsField(op, e, m.labels) {
      SinglePieces(op, rt, rs, e, m.labels);
      KnownSingle(m, op, rt, rs, e, code, v);
    } else {
      PiecesWide(op, rt, rs, e, m.labels);
      KnownWide(m, op, rt, rs, e, code, v);
    }
  }
}
