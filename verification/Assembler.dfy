/** The back end of the assembler: it writes instructions into the text segment, keeps the list of
    uses of every undefined label, and patches them when the label gets its address. */
module Assembler {
  import opened Word
  import opened Instruction
  import opened Codec
  import opened Linker
  import opened Expansion
  import opened ForwardRefs
  import Programs
  import Statements
  import Isa

  /** Whether a call came back, or ended in run_error or fatal_error. */
  datatype Outcome = Pass | Fail {
    predicate IsFailure() { Fail? }
    function PropagateFailure(): Outcome { this }
  }

  class Assembler {
    var text: seq<Slot>
    var nextPc: Word
    var labels: Labels

    /** The number of the slot at nextPc. */
    ghost var next: nat

    ghost predicate Ready()
      reads this
    {
      nextPc == Isa.TEXT_BOT + 4 * next && next < |text| && Isa.TEXT_BOT + 4 * |text| <= Isa.DATA_BOT
    }

    ghost function View(): Object
      reads this
    {
      Object(text, next, labels)
    }

    constructor (textWords: nat)
      requires 0 < textWords && Isa.TEXT_BOT + 4 * textWords <= Isa.DATA_BOT
      ensures Ready() && View() == Object(seq(textWords, _ => Slot.None), 0, map[])
    {
      text := seq(textWords, _ => Slot.None);
      nextPc := Isa.TEXT_BOT;
      next := 0;
      labels := map[];
    }

    // ---------- Labels ----------

    /** The entry for a name, made if there is none. */
    method LookupLabel(name: string) returns (l: Label)
      modifies this`labels
      ensures name in labels && l == labels[name]
      ensures labels == if name in old(labels) then old(labels) else old(labels)[name := Label(0, false, [])]
    {
      if name !in labels {
        labels := labels[name := Label(0, false, [])];
      }
      l := labels[name];
    }

    method RecordInstUsesSymbol(sym: string)
      requires Ready()
      modifies this`labels
      ensures labels == Recorded(old(labels), sym, next)
    {
      var u := (nextPc - Isa.TEXT_BOT) / 4;
      var l := LookupLabel(sym);
      labels := labels[sym := l.(uses := [u] + l.uses)];
    }

    // ---------- Text ----------

    method StoreInstruction(inst: Inst) returns (o: Outcome)
      requires Ready()
      modifies this`text, this`nextPc, this`next
      ensures o.Fail? <==> old(|text|) <= old(next) + 1
      ensures o.Pass? ==> Ready() && next == old(next) + 1
      ensures o.Pass? ==> text == old(text)[old(next) := Slot.Some(if inst.encoding == 0 then Encoded(inst) else inst)]
    {
      var i := inst;
      if i.encoding == 0 {
        i := Encoded(inst);
      }
      text := text[(nextPc - Isa.TEXT_BOT) / 4 := Slot.Some(i)];
      nextPc := nextPc + 4;
      next := next + 1;
      if Isa.TEXT_BOT + 4 * |text| <= nextPc {
        return Fail;
      }
      return Pass;
    }

    /** The instruction at address a, in slot n; outside the segment, the decoding of zero. */
    method ReadMemInst(a: int, ghost n: int) returns (slot: Slot)
      requires a == Isa.TEXT_BOT + 4 * n
      ensures if 0 <= n < |text| then slot == text[n] else slot.Some? && !slot.value.op.LUI?
    {
      DecodeZero();
      if Isa.TEXT_BOT <= a < Isa.TEXT_BOT + 4 * |text| {
        slot := text[(a - Isa.TEXT_BOT) / 4];
      } else {
        slot := Slot.Some(Decode(0));
      }
    }

    // ---------- Resolving a use ----------

    /** The instruction inst at pc, in slot n, gets the value of its expression. */
    method ResolveALabelSub(inst: Inst, pc: Word, ghost n: nat) returns (out: Inst)
      requires inst.expr.Some? && Isa.TEXT_BOT + 4 * |text| <= Isa.DATA_BOT
      requires n < |text| && pc == Isa.TEXT_BOT + 4 * n
      modifies this`text
      ensures |text| == |old(text)|
      ensures var e := Placed(inst.expr.value, n);
              if Defined(e, labels)
              then out == Encoded(Filled(inst, e, labels)) && text == Compensated(old(text), n, inst.op, e, labels)
              else out == inst.(expr := Some(e)) && text == old(text)
    {
      var e := inst.expr.value;
      if e.pcRelative {
        // The instruction may have moved.
        e := e.(offset := Signed(Wrap(0x1_0000_0000 - pc)));
      }
      assert e == Placed(inst.expr.value, n);
      if !Defined(e, labels) {
        return inst.(expr := Some(e));
      }
      if IsLoadStore(inst.op) && Bit15(Eval(e, labels)) {
        CompensateHighHalf(pc, e.symbol, n);
      }
      out := FillField(inst, e, labels);
      out := Encoded(out);
    }

    static method FillField(inst: Inst, e: ImmExpr, labels: Labels) returns (out: Inst)
      ensures out == Filled(inst, e, labels)
    {
      var value: int := Eval(e, labels);
      if IsBranch(inst.op) {
        value := SignEx(value) / 4 % 0x1_0000;
      } else if IsJump(inst.op) {
        value := Wrap(value) % 0x1000_0000 / 4;
      }
      out := inst.(expr := Some(e));
      if IsJump(inst.op) {
        out := out.(target := value);
      } else {
        out := out.(imm := S16(value));
      }
    }

    /** A load or store sign-extends its displacement: add 1 to the high half in the LUI before it,
        or before the ADDU before it, unless that LUI already has its immediate. */
    method CompensateHighHalf(pc: Word, sym: Option<string>, ghost n: nat)
      requires n < |text| && pc == Isa.TEXT_BOT + 4 * n
      modifies this`text
      ensures text == match LookBack(old(text), n, sym)
                      case None => old(text)
                      case Some(k) => old(text)[k := Slot.Some(Bumped(old(text)[k].value))]
    {
      var prev := ReadMemInst(pc - 4, n - 1);
      var prevPrev := ReadMemInst(pc - 8, n - 2);
      if IsOpenLui(prev, sym) {
        text := text[(pc - 4 - Isa.TEXT_BOT) / 4 := Slot.Some(Bumped(prev.value))];
      } else if IsOpenLui(prevPrev, sym) {
        text := text[(pc - 8 - Isa.TEXT_BOT) / 4 := Slot.Some(Bumped(prevPrev.value))];
      }
    }

    // ---------- Instructions ----------

    /** The pieces of a statement have been emitted, starting from m. */
    ghost predicate Emitted(m: Object, code: seq<Inst>)
      reads this
    {
      Ready() && m.next + |code| < |m.text| && View() == EmitAll(m, code)
    }

    /** There is no room for the pieces and the slot after them. */
    static predicate Full(m: Object, code: seq<Inst>) { |m.text| <= m.next + |code| }

    lemma EmittedMore(m: Object, m1: Object, xs: seq<Inst>, ys: seq<Inst>)
      requires m.next + |xs| <= |m.text| && m1 == EmitAll(m, xs) && Emitted(m1, ys)
      ensures Emitted(m, xs + ys)
    {
      EmitAllAppends(m, xs, ys);
    }

    method RTypeInst(op: Op, rd: Reg, rs: Reg, rt: Reg) returns (o: Outcome)
      requires Ready()
      modifies this`text, this`nextPc, this`next
      ensures o.Fail? <==> Full(old(View()), [MakeR(op, rd, rs, rt)])
      ensures o.Pass? ==> Emitted(old(View()), [MakeR(op, rd, rs, rt)])
    {
      o := StoreFixed(MakeR(op, rd, rs, rt));
    }

    /** A shift by a number of bits, of which the field keeps the low five. */
    method RShTypeInst(op: Op, rd: Reg, rt: Reg, shamt: int) returns (o: Outcome)
      requires Ready()
      modifies this`text, this`nextPc, this`next
      ensures o.Fail? <==> Full(old(View()), [MakeShift(op, rd, rt, shamt)])
      ensures o.Pass? ==> Emitted(old(View()), [MakeShift(op, rd, rt, shamt)])
    {
      var inst := MakeR(op, rd, 0, rt);
      o := StoreFixed(inst.(shamt := shamt % 32));
    }

    /** One instruction without an expression. */
    method StoreFixed(inst: Inst) returns (o: Outcome)
      requires Ready() && inst.expr.None? && inst.encoding == 0
      modifies this`text, this`nextPc, this`next
      ensures o.Fail? <==> Full(old(View()), [inst])
      ensures o.Pass? ==> Emitted(old(View()), [inst])
    {
      ghost var m := View();
      EmitAllOne(m, inst);
      :- StoreInstruction(inst);
      assert View() == Emit(m, inst) by {
        assert text == Emit(m, inst).text;
      }
      return Pass;
    }

    /** An instruction with an immediate, or the sequence that stands for it. */
    method ITypeInst(op: Op, rt: Reg, rs: Reg, expr: ImmExpr) returns (o: Outcome)
      requires Ready()
      modifies this`text, this`nextPc, this`next, this`labels
      decreases InstRank(op, expr, labels), 0
      ensures o.Fail? <==>
              Full(old(View()), Pieces(op, rt, rs, expr, old(labels))) ||
              Inexpressible(op, rs, expr, old(labels))
      ensures o.Pass? ==> Emitted(old(View()), Pieces(op, rt, rs, expr, old(labels)))
    {
      if !Single(op, expr, labels) {
        RankDrops(op, rt, rs, expr, labels);
        o := ExpandFullWord(op, rt, rs, expr, Defined(expr, labels), KnownValue(expr, labels));
        return;
      }
      SinglePieces(op, rt, rs, expr, labels);
      EmitAllOne(View(), MakeI(op, rt, rs, expr));
      o := StoreWithExpr(MakeI(op, rt, rs, expr));
    }

    method ExpandFullWord(op: Op, rt: Reg, rs: Reg, expr: ImmExpr, known: bool, value: Int32) returns (o: Outcome)
      requires Ready() && !Single(op, expr, labels)
      requires known == Defined(expr, labels) && value == KnownValue(expr, labels)
      modifies this`text, this`nextPc, this`next, this`labels
      decreases WideRank(op, expr, rs, known, value, labels), 2
      ensures o.Fail? <==>
              Full(old(View()), Pieces(op, rt, rs, expr, old(labels))) ||
              Inexpressible(op, rs, expr, old(labels))
      ensures o.Pass? ==> Emitted(old(View()), Pieces(op, rt, rs, expr, old(labels)))
    {
      hide Pieces, ConstPieces, WidePieces, ReachedByGp, Single, WideInexpressible, Emitted;
      if ReachedByGp(op, rs, expr, labels) {
        PiecesGp(op, rt, rs, expr, labels);
      } else {
        PiecesWide(op, rt, rs, expr, labels);
      }
      o := ITypeInstFullWord(op, rt, rs, expr, known, value);
    }

    /** One instruction: its field is filled in now, or when its symbol is defined. */
    method StoreWithExpr(inst: Inst) returns (o: Outcome)
      requires Ready() && inst.expr.Some? && inst.encoding == 0
      modifies this`text, this`nextPc, this`next, this`labels
      ensures o.Fail? <==> old(|text|) <= old(next) + 1
      ensures o.Pass? ==> Ready() && View() == Emit(old(View()), inst)
    {
      ghost var m := View();
      if Defined(inst.expr.value, labels) {
        ResolvedEncodes(Filled(inst, Placed(inst.expr.value, m.next), labels));
        var i := ResolveALabelSub(inst, nextPc, next);
        o := StoreInstruction(i);
      } else {
        RecordInstUsesSymbol(inst.expr.value.symbol.value);
        o := StoreInstruction(inst);
      }
      assert o.Pass? ==> text == Emit(m, inst).text;
    }

    /** The immediate does not fit, or its value is not known: build it from its halves. */
    method ITypeInstFullWord(op: Op, rt: Reg, rs: Reg, expr: ImmExpr, known: bool, value: Int32) returns (o: Outcome)
      requires Ready()
      modifies this`text, this`nextPc, this`next, this`labels
      decreases WideRank(op, expr, rs, known, value, labels), 1
      ensures var code := if ReachedByGp(op, rs, expr, old(labels)) then ConstPieces(GpOp(op), rt, 28, GpOffset(expr, old(labels)), old(labels))
                          else if SpecialCase(op, known, value) then ConstPieces(op, rt, rs, Const(LowPart(value)), old(labels))
                          else WidePieces(op, rt, rs, expr, known, value);
              o.Fail? <==> Full(old(View()), code) || WideInexpressible(op, rs, expr, old(labels), known, value)
      ensures o.Pass? && ReachedByGp(op, rs, expr, old(labels)) ==>
                Emitted(old(View()), ConstPieces(GpOp(op), rt, 28, GpOffset(expr, old(labels)), old(labels)))
      ensures o.Pass? && !ReachedByGp(op, rs, expr, old(labels)) && SpecialCase(op, known, value) ==>
                Emitted(old(View()), ConstPieces(op, rt, rs, Const(LowPart(value)), old(labels)))
      ensures o.Pass? && !ReachedByGp(op, rs, expr, old(labels)) && !SpecialCase(op, known, value) ==>
                Emitted(old(View()), WidePieces(op, rt, rs, expr, known, value))
    {
      hide ConstPieces, WidePieces, ReachedByGp, SpecialCase, ConstInexpressible, NoForm, Emitted;
      if ReachedByGp(op, rs, expr, labels) {
        o := ConstFullWord(GpOp(op), rt, 28, GpOffset(expr, labels).offset);
      } else if SpecialCase(op, known, value) {
        o := ConstFullWord(op, rt, rs, LowPart(value));
      } else {
        o := WideFullWord(op, rt, rs, expr, known, value);
      }
    }

    method WideFullWord(op: Op, rt: Reg, rs: Reg, expr: ImmExpr, known: bool, value: Int32) returns (o: Outcome)
      requires Ready() && !SpecialCase(op, known, value)
      modifies this`text, this`nextPc, this`next, this`labels
      decreases 1, 0, 2
      ensures o.Fail? <==> Full(old(View()), WidePieces(op, rt, rs, expr, known, value)) || NoForm(op, rs)
      ensures o.Pass? ==> Emitted(old(View()), WidePieces(op, rt, rs, expr, known, value))
    {
      hide AccessPieces, ComputePieces, WidePieces, SpecialCase, IsLoadStore, IsBranch, NoForm, Emitted;
      WideIs(op, rt, rs, expr, known, value);
      if IsLoadStore(op) {
        o := AccessFullWord(op, rt, rs, expr, known, value);
      } else if IsBranch(op) {
        o := BranchFullWord(op, rt, rs, expr);
      } else {
        o := ComputeFullWord(op, rt, rs, expr, known, value);
      }
    }

    method ConstFullWord(op: Op, rt: Reg, rs: Reg, v: Int32) returns (o: Outcome)
      requires Ready()
      modifies this`text, this`nextPc, this`next, this`labels
      decreases 2, 1
      ensures o.Fail? <==>
              Full(old(View()), ConstPieces(op, rt, rs, Const(v), old(labels))) ||
              ConstInexpressible(op, rs, Const(v), old(labels))
      ensures o.Pass? ==> Emitted(old(View()), ConstPieces(op, rt, rs, Const(v), old(labels)))
    {
      hide Pieces, ConstPieces, ConstInexpressible, Inexpressible, EmitAll;
      PiecesOfConst(op, rt, rs, v, labels);
      ConstExpressed(op, rs, v, labels);
      RankOfConst(op, v, labels);
      o := ITypeInst(op, rt, rs, Const(v));
    }

    /** This only reaches 32 kilobytes each way. */
    method BranchFullWord(op: Op, rt: Reg, rs: Reg, expr: ImmExpr) returns (o: Outcome)
      requires Ready() && IsBranch(op)
      modifies this`text, this`nextPc, this`next, this`labels
      decreases 1, 0, 0
      ensures o.Fail? <==> Full(old(View()), [MakeI(op, rt, rs, Lower(expr))])
      ensures o.Pass? ==> Emitted(old(View()), [MakeI(op, rt, rs, Lower(expr))])
    {
      HalfIsSingle(op, Lower(expr), labels);
      SinglePieces(op, rt, rs, Lower(expr), labels);
      o := ITypeInst(op, rt, rs, Lower(expr));
    }

    method ComputeFullWord(op: Op, rt: Reg, rs: Reg, expr: ImmExpr, known: bool, value: Int32) returns (o: Outcome)
      requires Ready()
      modifies this`text, this`nextPc, this`next, this`labels
      decreases 1, 0, 1
      ensures o.Fail? <==>
              Full(old(View()), ComputePieces(op, rt, rs, expr, known, value)) ||
              (!LoadsDirectly(op, rs) && ImmOpToOp(op).None?)
      ensures o.Pass? ==> Emitted(old(View()), ComputePieces(op, rt, rs, expr, known, value))
    {
      if LoadsDirectly(op, rs) {
        o := ProduceImmediate(expr, rt, known, value);
        return;
      }
      ghost var m := View();
      :- ProduceImmediate(expr, 1, known, value);
      if ImmOpToOp(op).None? { return Fail; }
      ghost var m1 := View();
      :- RTypeInst(ImmOpToOp(op).value, rt, rs, 1);
      EmittedMore(m, m1, ValuePieces(1, expr, known, value), [MakeR(ImmOpToOp(op).value, rt, rs, 1)]);
      return Pass;
    }

    method AccessFullWord(op: Op, rt: Reg, rs: Reg, expr: ImmExpr, known: bool, value: Int32) returns (o: Outcome)
      requires Ready() && IsLoadStore(op) && !SpecialCase(op, known, value)
      modifies this`text, this`nextPc, this`next, this`labels
      decreases 1, 0, 0
      ensures o.Fail? <==> Full(old(View()), AccessPieces(op, rt, rs, expr, known, value))
      ensures o.Pass? ==> Emitted(old(View()), AccessPieces(op, rt, rs, expr, known, value))
    {
      if known {
        HighHalfFits(value);
        ConstIsSingle(LUI, HighPart(value), labels);
        o := AccessOffAt(op, rt, rs, Const(HighPart(value)), Lower(Const(LowPart(value))));
      } else {
        HalfIsSingle(LUI, Upper(expr), labels);
        o := AccessOffAt(op, rt, rs, Upper(expr), Lower(expr));
      }
    }

    /** LUI, an ADDU of the base register if there is one, and the access off $at. */
    method AccessOffAt(op: Op, rt: Reg, rs: Reg, hi: ImmExpr, lo: ImmExpr) returns (o: Outcome)
      requires Ready() && IsLoadStore(op) && Single(LUI, hi, labels) && lo.bits != 0
      modifies this`text, this`nextPc, this`next, this`labels
      decreases 0, 2
      ensures o.Fail? <==> Full(old(View()), [MakeI(LUI, 1, 0, hi)] + Indexed(rs) + [MakeI(op, rt, 1, lo)])
      ensures o.Pass? ==> Emitted(old(View()), [MakeI(LUI, 1, 0, hi)] + Indexed(rs) + [MakeI(op, rt, 1, lo)])
    {
      ghost var m := View();
      :- LuiIndexed(hi, rs);
      ghost var m2 := View();
      HalfIsSingle(op, lo, labels);
      SinglePieces(op, rt, 1, lo, labels);
      :- ITypeInst(op, rt, 1, lo);
      EmittedMore(m, m2, [MakeI(LUI, 1, 0, hi)] + Indexed(rs), [MakeI(op, rt, 1, lo)]);
      return Pass;
    }

    method LuiIndexed(hi: ImmExpr, rs: Reg) returns (o: Outcome)
      requires Ready() && Single(LUI, hi, labels)
      modifies this`text, this`nextPc, this`next, this`labels
      decreases 0, 1
      ensures o.Fail? <==> Full(old(View()), [MakeI(LUI, 1, 0, hi)] + Indexed(rs))
      ensures o.Pass? ==> Emitted(old(View()), [MakeI(LUI, 1, 0, hi)] + Indexed(rs))
    {
      ghost var m := View();
      SinglePieces(LUI, 1, 0, hi, labels);
      :- ITypeInst(LUI, 1, 0, hi);
      if rs == 0 {
        assert [MakeI(LUI, 1, 0, hi)] + Indexed(rs) == [MakeI(LUI, 1, 0, hi)];
        return Pass;
      }
      ghost var m1 := View();
      :- RTypeInst(ADDU, 1, 1, rs);
      EmittedMore(m, m1, [MakeI(LUI, 1, 0, hi)], Indexed(rs));
      return Pass;
    }

    method ProduceImmediate(expr: ImmExpr, rt: Reg, known: bool, value: Int32) returns (o: Outcome)
      requires Ready()
      modifies this`text, this`nextPc, this`next, this`labels
      decreases 1, 0, 0
      ensures o.Fail? <==> Full(old(View()), ValuePieces(rt, expr, known, value))
      ensures o.Pass? ==> Emitted(old(View()), ValuePieces(rt, expr, known, value))
    {
      HalfIsSingle(LUI, Upper(expr), labels);
      SinglePieces(LUI, rt, 0, Upper(expr), labels);
      if known && Lo16(Wrap(value)) == 0 {
        o := ITypeInst(LUI, rt, 0, Upper(expr));
      } else if known && Hi16(Wrap(value)) == 0 {
        HalfIsSingle(ORI, Lower(expr), labels);
        SinglePieces(ORI, rt, 0, Lower(expr), labels);
        o := ITypeInst(ORI, rt, 0, Lower(expr));
      } else {
        o := ProduceBothHalves(expr, rt);
      }
    }

    method ProduceBothHalves(expr: ImmExpr, rt: Reg) returns (o: Outcome)
      requires Ready()
      modifies this`text, this`nextPc, this`next, this`labels
      decreases 0, 1
      ensures o.Fail? <==> Full(old(View()), [MakeI(LUI, 1, 0, Upper(expr)), MakeI(ORI, rt, 1, Lower(expr))])
      ensures o.Pass? ==> Emitted(old(View()), [MakeI(LUI, 1, 0, Upper(expr)), MakeI(ORI, rt, 1, Lower(expr))])
    {
      ghost var m := View();
      HalfIsSingle(LUI, Upper(expr), labels);
      SinglePieces(LUI, 1, 0, Upper(expr), labels);
      :- ITypeInst(LUI, 1, 0, Upper(expr));
      ghost var m1 := View();
      HalfIsSingle(ORI, Lower(expr), labels);
      SinglePieces(ORI, rt, 1, Lower(expr), labels);
      :- ITypeInst(ORI, rt, 1, Lower(expr));
      EmittedMore(m, m1, [MakeI(LUI, 1, 0, Upper(expr))], [MakeI(ORI, rt, 1, Lower(expr))]);
      return Pass;
    }

    /** A jump takes no offset, and is not relative to its place. */
    method JTypeInst(op: Op, target: ImmExpr) returns (o: Outcome)
      requires Ready() && IsJump(op)
      modifies this`text, this`nextPc, this`next, this`labels
      ensures o.Fail? <==> Full(old(View()), Programs.CodeOf(Programs.Jump(op, target), old(View())))
      ensures o.Pass? ==> Emitted(old(View()), Programs.CodeOf(Programs.Jump(op, target), old(View())))
    {
      ghost var m := View();
      var inst := MakeI(op, 0, 0, target.(offset := 0, pcRelative := false));
      EmitAllOne(m, inst);
      :- StoreWithExpr(inst);
      return Pass;
    }

    // ---------- Definitions ----------

    /** Every instruction that waits for the label gets its address, the latest first. */
    method ResolveLabelUses(name: string)
      requires Isa.TEXT_BOT + 4 * |text| <= Isa.DATA_BOT && name in labels && labels[name].addr != 0
      requires Programs.AreUses(text, labels[name].uses, name)
      modifies this`text, this`labels
      ensures text == ResolveAll(old(text), old(labels[name].uses), old(labels))
      ensures labels == old(labels)[name := old(labels[name]).(uses := [])]
    {
      var uses := labels[name].uses;
      ghost var whole := ResolveAll(text, uses, labels);
      var i := 0;
      while i < |uses|
        invariant 0 <= i <= |uses| && |text| == old(|text|) && labels == old(labels)
        invariant Programs.AreUses(text, uses[i..], name)
        invariant ResolveAll(text, uses[i..], labels) == whole
      {
        assert uses[i..][0] == uses[i] && uses[i..][1..] == uses[i + 1..];
        assert Programs.IsUse(text, uses[i..][0], name);
        ghost var before := text;
        ResolveUse(uses[i], name);
        UsesStay(before, uses[i], labels, uses[i + 1..], name);
        i := i + 1;
      }
      labels := labels[name := labels[name].(uses := [])];
    }

    method ResolveUse(u: nat, name: string)
      requires Isa.TEXT_BOT + 4 * |text| <= Isa.DATA_BOT && name in labels && labels[name].addr != 0
      requires Programs.IsUse(text, u, name)
      modifies this`text
      ensures text == ResolveAt(old(text), u, labels)
    {
      var inst := text[u].value;
      var out := ResolveALabelSub(inst, Isa.TEXT_BOT + 4 * u, u);
      text := text[u := Slot.Some(out)];
      forall k: nat | k < |text| ensures text[k] == ResolveAt(old(text), u, labels)[k] {
        assert ResolveAt(old(text), u, labels)[k] == SlotResolved(old(text), u, labels, k);
      }
    }

    /** The labels agree, but that the one named has the address unless it had one. */
    static ghost predicate Addressed(before: Labels, after: Labels, name: string, address: Word) {
      && (forall n: string :: n != name ==> LabelOf(n, after) == LabelOf(n, before))
      && var l := LabelOf(name, before);
         LabelOf(name, after) == if l.gp || l.addr != 0 then l else l.(addr := address)
    }

    /** Give a label its address, once, and resolve its uses. A label in the $gp area has its
        address already. */
    method RecordLabel(name: string, address: Word, resolveUses: bool)
      requires Isa.TEXT_BOT + 4 * |text| <= Isa.DATA_BOT && address != 0
      requires Programs.AreUses(text, LabelOf(name, labels).uses, name)
      requires LabelOf(name, labels).gp ==> AddressOf(name, labels) != 0
      modifies this`text, this`labels
      ensures |text| == old(|text|)
      ensures resolveUses && !old(LabelOf(name, labels).gp) ==>
              View() == Programs.DefineLabel(old(View()), name, address)
      ensures resolveUses && old(LabelOf(name, labels).gp) ==>
              && text == ResolveAll(old(text), old(LabelOf(name, labels).uses), old(labels))
              && labels == old(labels)[name := old(LabelOf(name, labels)).(uses := [])]
      ensures !resolveUses ==> text == old(text) && Addressed(old(labels), labels, name, address)
    {
      var l := LookupLabel(name);
      if !l.gp {
        if l.addr != 0 {
          return;
        }
        labels := labels[name := l.(addr := address)];
      }
      if resolveUses {
        ResolveLabelUses(name);
      }
    }

    // ---------- Programs ----------

    /** What the parser's action for a statement does. */
    method Assemble(st: Programs.Statement, ghost log: seq<Entry>) returns (o: Outcome)
      requires Ready() && Programs.Inv(View(), log) && Programs.Legal(st, View())
      modifies this
      ensures Programs.UsesWithin(old(View()), st)
      ensures o.Pass? <==> Programs.Do(old(View()), st).next < old(|text|)
      ensures o.Pass? ==> Ready() && View() == Programs.Do(old(View()), st)
    {
      hide Programs.AllOk, Programs.UsesOk, Programs.AllUses, Pieces, EmitAll, Programs.DefineLabel;
      ghost var m := View();
      Programs.DoPreserves(m, log, st);
      Programs.DoGrows(m, st);
      match st {
        case Immediate(op, rt, rs, e) =>
          Programs.NoGp(op, rs, e, labels);
          Expressed(op, rs, e, next, labels);
          o := ITypeInst(op, rt, rs, e);
        case Jump(op, e) =>
          o := JTypeInst(op, e);
        case Register(op, rd, rs, rt) =>
          o := RTypeInst(op, rd, rs, rt);
        case Shift(op, rd, rt, shamt) =>
          o := RShTypeInst(op, rd, rt, shamt);
        case Define(name, addr) =>
          Programs.UsesWait(m, log, name);
          Within(m.text, LabelOf(name, m.labels).uses, name);
          RecordLabel(name, addr, true);
          o := Pass;
      }
    }

    /** A whole program, statement by statement. It comes back if the program does not fill the text
        segment, as the last slot is not used. */
    method AssembleAll(sts: seq<Programs.Statement>) returns (o: Outcome)
      requires Ready() && Programs.Inv(View(), []) && Programs.LegalRun(sts, View())
      modifies this
      ensures o.Pass? <==> Programs.Assembled(sts, old(View())).next < old(|text|)
      ensures o.Pass? ==> Ready() && View() == Programs.Assembled(sts, old(View()))
    {
      hide Programs.Inv, Programs.Legal, Programs.Do, Programs.EntryOf, Programs.Logged;
      ghost var m, log := View(), [];
      assert sts[0..] == sts;
      var i := 0;
      while i < |sts|
        invariant 0 <= i <= |sts| && Ready() && Programs.Inv(View(), log) && |text| == |m.text|
        invariant Programs.LegalRun(sts[i..], View())
        invariant Programs.Assembled(sts[i..], View()) == Programs.Assembled(sts, m)
      {
        assert sts[i..][0] == sts[i] && sts[i..][1..] == sts[i + 1..];
        Programs.DoPreserves(View(), log, sts[i]);
        ghost var log' := Programs.Logged(log, Programs.EntryOf(sts[i], View()));
        Programs.FirstGrows(sts[i..], View());
        o := Assemble(sts[i], log);
        if o.Fail? { return; }
        log := log';
        i := i + 1;
      }
      assert sts[|sts|..] == [] && sts[0..] == sts;
      o := Pass;
    }
  }

  /** What a program may contain can be expressed. */
  lemma Expressed(op: Op, rs: Reg, e: ImmExpr, n: nat, labels: Labels)
    requires Statements.Sound(op, rs, e, n, labels) && !ReachedByGp(op, rs, e, labels)
    ensures !Inexpressible(op, rs, e, labels)
  {
    hide Single, ReachedByGp, IsLoadStore, IsBranch, LoadsDirectly, ImmOpToOp, SignExtends;
    if !Single(op, e, labels) { NotSpecial(op, rs, e, labels); }
  }

  lemma NotSpecial(op: Op, rs: Reg, e: ImmExpr, labels: Labels)
    requires !Single(op, e, labels) && !ReachedByGp(op, rs, e, labels)
    ensures !SpecialCase(op, Defined(e, labels), KnownValue(e, labels))
  {
    hide SpecialCase;
    PiecesWide(op, 0, rs, e, labels);
  }

  lemma Within(t: seq<Slot>, uses: seq<nat>, name: string)
    requires Programs.AreUses(t, uses, name)
    ensures forall k | 0 <= k < |uses| :: uses[k] < |t|
  {
    forall k | 0 <= k < |uses| ensures uses[k] < |t| {
      assert Programs.IsUse(t, uses[k], name);
    }
  }

  lemma UsesStay(t: seq<Slot>, n: nat, labels: Labels, uses: seq<nat>, name: string)
    requires n < |t| && Programs.AreUses(t, uses, name)
    ensures Programs.AreUses(ResolveAt(t, n, labels), uses, name)
  {
    forall k | 0 <= k < |uses| ensures Programs.IsUse(ResolveAt(t, n, labels), uses[k], name) {
      assert Programs.IsUse(t, uses[k], name);
      assert ResolveAt(t, n, labels)[uses[k]] == SlotResolved(t, n, labels, uses[k]);
    }
  }

  lemma DecodeZero()
    ensures !Decode(0).op.LUI?
  {
  }

  /** Encoding an instruction does not look at its encoding. */
  lemma ResolvedEncodes(i: Inst)
    ensures Encoded(Encoded(i)) == Encoded(i)
  {
  }
}
