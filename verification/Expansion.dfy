/** The instruction sequences that an assembler statement may become, and why the pieces of a
    constant add up to it. */
module Expansion {
  import opened Word
  import opened Instruction
  import opened Codec
  import opened Linker

  function MakeI(op: Op, rt: Reg, rs: Reg, e: ImmExpr): Inst {
    Inst(op, rs, rt, 0, 0, 0, 0, 0, Some(e))
  }

  function MakeR(op: Op, rd: Reg, rs: Reg, rt: Reg): Inst {
    Inst(op, rs, rt, rd, 0, 0, 0, 0, None)
  }

  function MakeShift(op: Op, rd: Reg, rt: Reg, shamt: int): Inst {
    Inst(op, 0, rt, rd, shamt % 32, 0, 0, 0, None)
  }

  // ---------- Shapes ----------

  predicate IsI(s: Slot, op: Op, rt: Reg, rs: Reg) {
    s.Some? && s.value.op == op && s.value.rt == rt && s.value.rs == rs
  }

  predicate IsR(s: Slot, op: Op, rd: Reg, rs: Reg, rt: Reg) {
    s.Some? && s.value.op == op && s.value.rd == rd && s.value.rs == rs && s.value.rt == rt
  }

  /** op rt, imm(rs), where imm stands for the word v. */
  predicate Takes(s: Slot, op: Op, rt: Reg, rs: Reg, v: Word) {
    IsI(s, op, rt, rs) && Extended(op, s.value.imm) == v
  }

  /** Immediate operands whose sign the instruction extends. */
  predicate ExtendsSign(op: Op) {
    IsLoadStore(op) || op in {ADDI, ADDIU, SLTI, SLTIU, TEQI, TGEI, TGEIU, TLTI, TLTIU, TNEI}
  }

  /** The operand or displacement that a field stands for. */
  function Extended(op: Op, imm: Int16): Word {
    if op.LUI? then imm % 0x1_0000 * 0x1_0000 else if ExtendsSign(op) then Wrap(imm) else imm % 0x1_0000
  }

  /** LUI $1 and ORI rt, $1 make v. */
  predicate JoinsUp(hi: Slot, lo: Slot, rt: Reg, v: Word) {
    IsI(hi, LUI, 1, 0) && IsI(lo, ORI, rt, 1) && Imm16(hi.value) * 0x1_0000 + Imm16(lo.value) == v
  }

  /** Slots a to b put v into register rt. */
  predicate LoadsValue(t: seq<Slot>, a: nat, b: nat, rt: Reg, v: Word)
    requires a <= b <= |t|
  {
    if b == a + 1 then Takes(t[a], LUI, rt, 0, v) || Takes(t[a], ORI, rt, 0, v)
    else b == a + 2 && JoinsUp(t[a], t[a + 1], rt, v)
  }

  /** LUI of an operand that fits its field puts it into the high half of rt. The assembler takes a
      wider operand, and one not yet known, to be the value that rt is to have. */
  predicate LoadsUpper(t: seq<Slot>, a: nat, b: nat, rt: Reg, rs: Reg, v: Word)
    requires a <= b <= |t|
  {
    if b == a + 1 && v < 0x1_0000 then Takes(t[a], LUI, rt, rs, v * 0x1_0000) else LoadsValue(t, a, b, rt, v)
  }

  /** The opcodes that leave their constant in rt when their source is $0. */
  predicate LoadsDirectly(op: Op, rs: Reg) { (op.ORI? || op.ADDI? || op.ADDIU? || op.LUI?) && rs == 0 }

  function ImmOpToOp(op: Op): Option<Op> {
    if op.ADDI? then Some(ADD)
    else if op.ADDIU? then Some(ADDU)
    else if op.ANDI? then Some(AND)
    else if op.ORI? then Some(OR)
    else if op.XORI? then Some(XOR)
    else if op.SLTI? then Some(SLT)
    else if op.SLTIU? then Some(SLTU)
    else None
  }

  /** Slots a to b perform the computation op on the constant v. */
  predicate Computes(t: seq<Slot>, a: nat, b: nat, op: Op, rt: Reg, rs: Reg, v: Word)
    requires a <= b <= |t|
  {
    if b == a + 1 && Takes(t[a], op, rt, rs, v) then true
    else if LoadsDirectly(op, rs) then LoadsValue(t, a, b, rt, v)
    else
      && b >= a + 2 && LoadsValue(t, a, b - 1, 1, v) && ImmOpToOp(op).Some?
      && IsR(t[b - 1], ImmOpToOp(op).value, rt, rs, 1)
  }

  /** Slots a to b access the address R[rs] + d. */
  predicate Accesses(t: seq<Slot>, a: nat, b: nat, op: Op, rt: Reg, rs: Reg, d: Word)
    requires a <= b <= |t|
  {
    if b == a + 1 then Takes(t[a], op, rt, rs, d)
    else if rs == 0 then b == a + 2 && AddsUp(t[a], t[a + 1], op, rt, d)
    else b == a + 3 && IsR(t[a + 1], ADDU, 1, 1, rs) && AddsUp(t[a], t[a + 2], op, rt, d)
  }

  /** LUI $1 and a displacement off $1, whose sign the access extends, make d. */
  predicate AddsUp(hi: Slot, lo: Slot, op: Op, rt: Reg, d: Word) {
    IsI(hi, LUI, 1, 0) && IsI(lo, op, rt, 1) && Wrap(Imm16(hi.value) * 0x1_0000 + lo.value.imm) == d
  }

  // ---------- Arithmetic of the halves ----------

  /** Adding 0x10000 before taking the high half makes up for a negative low half. */
  lemma HalvesAdd(v: Word, h: int, l: int, hi: int, lo: int)
    requires v == h * 0x1_0000 + l && 0 <= l < 0x1_0000
    requires lo == S16(l) && hi == S16(if Bit15(l) then Hi16(Wrap(v + 0x1_0000)) else h)
    ensures Wrap(hi % 0x1_0000 * 0x1_0000 + lo) == v
  {
    if Bit15(l) {
      NextHigh(v, h, l);
      Carried(h, l, if h == 0xffff then 0 else h + 1);
    }
  }

  lemma NextHigh(v: Word, h: int, l: int)
    requires v == h * 0x1_0000 + l && 0 <= l < 0x1_0000
    ensures Hi16(Wrap(v + 0x1_0000)) == if h == 0xffff then 0 else h + 1
  {
    if h == 0xffff { ModUnique(v + 0x1_0000, 0x1_0000_0000, 1, l); }
    else { ModUnique(v + 0x1_0000, 0x1_0000_0000, 0, (h + 1) * 0x1_0000 + l); }
  }

  lemma Carried(h: int, l: int, n: int)
    requires 0 <= h < 0x1_0000 && 0x8000 <= l < 0x1_0000 && n == if h == 0xffff then 0 else h + 1
    ensures Wrap(n * 0x1_0000 + l - 0x1_0000) == h * 0x1_0000 + l
  {
  }

  /** The split of a displacement too large for a field: the high half, one more when the low half
      reads as negative, still fits a field, and is not zero. */
  lemma KnownHalves(v: Word, h: int, low: int, high: int)
    requires v == h * 0x1_0000 + low && 0 <= low < 0x1_0000
    requires !(-0x8000 <= Signed(v) < 0x8000)
    requires high == h + if Bit15(low) then 1 else 0
    ensures 0 < high < 0x1_0000 && high * 0x1_0000 + S16(low) == v
  {
  }

  lemma FieldHolds(x: int)
    requires 0 <= x < 0x1_0000
    ensures S16(x) % 0x1_0000 == x && (x != 0 ==> S16(x) != 0)
  {
  }

  // ---------- What emission leaves alone ----------

  /** The slot is as it was, except perhaps for the offset in an expression already resolved. */
  predicate Same(a: Slot, b: Slot, labels: Labels) {
    a == b ||
    (a.Some? && a.value.expr.Some? && b.Some? && b.value.expr.Some? && Defined(a.value.expr.value, labels)
     && b.value == a.value.(expr := Some(a.value.expr.value.(offset := b.value.expr.value.offset))))
  }

  /** Emission may record uses of a label, but gives it no address. */
  ghost predicate SameAddresses(before: Labels, after: Labels) {
    forall sym: string :: LabelOf(sym, after).addr == LabelOf(sym, before).addr
      && LabelOf(sym, after).gp == LabelOf(sym, before).gp
  }

  ghost predicate Keeps(m: Object, r: Object) {
    && |r.text| == |m.text| && m.next <= r.next <= |m.text|
    && (forall k | 0 <= k < m.next :: Same(m.text[k], r.text[k], m.labels))
    && (forall k | r.next <= k < |m.text| :: r.text[k] == m.text[k])
    && SameAddresses(m.labels, r.labels)
  }

  lemma SameDefined(e: ImmExpr, before: Labels, after: Labels)
    requires SameAddresses(before, after)
    ensures Defined(e, after) == Defined(e, before) && Total(e, after) == Total(e, before)
  {
  }

  lemma SameTwice(a: Slot, b: Slot, c: Slot, before: Labels, after: Labels)
    requires Same(a, b, before) && Same(b, c, after) && SameAddresses(before, after)
    ensures Same(a, c, before)
  {
    if b.Some? && b.value.expr.Some? { SameDefined(b.value.expr.value, before, after); }
  }

  lemma KeepsTwice(m: Object, a: Object, r: Object)
    requires Keeps(m, a) && Keeps(a, r)
    ensures Keeps(m, r)
  {
    forall k | 0 <= k < m.next ensures Same(m.text[k], r.text[k], m.labels) {
      SameTwice(m.text[k], a.text[k], r.text[k], m.labels, a.labels);
    }
  }

  lemma CompensatedSame(text: seq<Slot>, n: nat, op: Op, e: ImmExpr, labels: Labels, k: nat)
    requires n < |text| && k < |text| && Defined(e, labels)
    ensures Same(text[k], Compensated(text, n, op, e, labels)[k], labels)
    ensures k >= n ==> Compensated(text, n, op, e, labels)[k] == text[k]
  {
  }

  lemma EmitKeeps(m: Object, i: Inst)
    requires m.next < |m.text|
    ensures Keeps(m, Emit(m, i))
  {
    var r := Emit(m, i);
    forall k: nat | k < |m.text| && k != m.next
      ensures Same(m.text[k], r.text[k], m.labels) && (k > m.next ==> r.text[k] == m.text[k])
    {
      assert r.text[k] == SlotAfter(m, i, k);
      if i.expr.Some? && Defined(i.expr.value, m.labels) {
        CompensatedSame(m.text, m.next, i.op, Placed(i.expr.value, m.next), m.labels, k);
      }
    }
  }

  // Shapes look at the fields alone.

  predicate Alike(a: Slot, b: Slot) {
    a.Some? == b.Some? && (a.Some? ==> SameParts(a.value, b.value))
  }

  predicate SameParts(i: Inst, j: Inst) {
    i.op == j.op && i.rs == j.rs && i.rt == j.rt && i.rd == j.rd && i.shamt == j.shamt && i.imm == j.imm
      && i.target == j.target
  }

  lemma SameAlike(a: Slot, b: Slot, labels: Labels)
    requires Same(a, b, labels)
    ensures Alike(a, b)
  {
  }

  lemma TakesStays(s: Slot, s': Slot, op: Op, rt: Reg, rs: Reg, v: Word)
    requires Alike(s, s')
    ensures Takes(s, op, rt, rs, v) == Takes(s', op, rt, rs, v)
  {
  }

  lemma JoinsUpStays(hi: Slot, lo: Slot, hi': Slot, lo': Slot, rt: Reg, v: Word)
    requires Alike(hi, hi') && Alike(lo, lo') && JoinsUp(hi, lo, rt, v)
    ensures JoinsUp(hi', lo', rt, v)
  {
  }

  lemma AddsUpStays(hi: Slot, lo: Slot, hi': Slot, lo': Slot, op: Op, rt: Reg, d: Word)
    requires Alike(hi, hi') && Alike(lo, lo') && AddsUp(hi, lo, op, rt, d)
    ensures AddsUp(hi', lo', op, rt, d)
  {
  }

  lemma LoadsValueStays(t: seq<Slot>, u: seq<Slot>, a: nat, b: nat, rt: Reg, v: Word)
    requires a <= b <= |t| == |u| && LoadsValue(t, a, b, rt, v)
    requires forall k | a <= k < b :: Alike(t[k], u[k])
    ensures LoadsValue(u, a, b, rt, v)
  {
    if b == a + 1 {
      TakesStays(t[a], u[a], LUI, rt, 0, v);
      TakesStays(t[a], u[a], ORI, rt, 0, v);
    } else {
      JoinsUpStays(t[a], t[a + 1], u[a], u[a + 1], rt, v);
    }
  }

  lemma LoadsUpperStays(t: seq<Slot>, u: seq<Slot>, a: nat, b: nat, rt: Reg, rs: Reg, v: Word)
    requires a <= b <= |t| == |u| && LoadsUpper(t, a, b, rt, rs, v)
    requires forall k | a <= k < b :: Alike(t[k], u[k])
    ensures LoadsUpper(u, a, b, rt, rs, v)
  {
    if b == a + 1 && v < 0x1_0000 {
      TakesStays(t[a], u[a], LUI, rt, rs, v * 0x1_0000);
    } else {
      LoadsValueStays(t, u, a, b, rt, v);
    }
  }

  lemma ComputesStays(t: seq<Slot>, u: seq<Slot>, a: nat, b: nat, op: Op, rt: Reg, rs: Reg, v: Word)
    requires a <= b <= |t| == |u| && Computes(t, a, b, op, rt, rs, v)
    requires forall k | a <= k < b :: Alike(t[k], u[k])
    ensures Computes(u, a, b, op, rt, rs, v)
  {
    if b == a + 1 { TakesStays(t[a], u[a], op, rt, rs, v); }
    if b == a + 1 && Takes(t[a], op, rt, rs, v) {
    } else if LoadsDirectly(op, rs) {
      LoadsValueStays(t, u, a, b, rt, v);
    } else {
      LoadsValueStays(t, u, a, b - 1, 1, v);
      assert Alike(t[b - 1], u[b - 1]);
    }
  }

  lemma AccessesStays(t: seq<Slot>, u: seq<Slot>, a: nat, b: nat, op: Op, rt: Reg, rs: Reg, d: Word)
    requires a <= b <= |t| == |u| && Accesses(t, a, b, op, rt, rs, d)
    requires forall k | a <= k < b :: Alike(t[k], u[k])
    ensures Accesses(u, a, b, op, rt, rs, d)
  {
    if b == a + 1 {
      TakesStays(t[a], u[a], op, rt, rs, d);
    } else if rs == 0 {
      AddsUpStays(t[a], t[a + 1], u[a], u[a + 1], op, rt, d);
    } else {
      AddsUpStays(t[a], t[a + 2], u[a], u[a + 2], op, rt, d);
      assert Alike(t[a + 1], u[a + 1]);
    }
  }

  // ---------- The pieces of a statement ----------

  /** The constants that one instruction can hold. A half of an expression always fits. */
  predicate FitsField(op: Op, e: ImmExpr, labels: Labels) {
    var v := Eval(e, labels);
    if ExtendsSign(op) && !(IsLoadStore(op) && e.bits != 0) then -0x8000 <= v < 0x8000 else 0 <= v < 0x1_0000
  }

  predicate Single(op: Op, e: ImmExpr, labels: Labels) {
    if Defined(e, labels) then FitsField(op, e, labels) else e.bits != 0
  }

  /** The symbol can be reached off $gp. */
  predicate GpReaches(e: ImmExpr, rs: Reg, labels: Labels) {
    && e.symbol.Some? && LabelOf(e.symbol.value, labels).gp && rs == 0
    && -0x8000 <= Signed(Wrap(AddressOf(e.symbol.value, labels) + e.offset)) < 0x8000
  }

  function GpOffset(e: ImmExpr, labels: Labels): ImmExpr {
    Const(if e.symbol.Some? then Signed(Wrap(AddressOf(e.symbol.value, labels) + e.offset)) else 0)
  }

  /** A displacement with bit 15 clear above a zero high half, or with bit 15 set below a high
      half of ones: the assembler has a case for it, where it never comes. */
  predicate SignExtends(v: Int32) {
    var high, low := Hi16(Wrap(v)), Lo16(Wrap(v));
    (high == 0 && !Bit15(low)) || (high == 0xffff && Bit15(low))
  }

  function Indexed(rs: Reg): seq<Inst> { if rs != 0 then [MakeR(ADDU, 1, 1, rs)] else [] }

  function LowPart(v: Int32): Int32 { Lo16(Wrap(v)) }

  function HighPart(v: Int32): Int32 { Hi16(Wrap(v)) + if Bit15(LowPart(v)) then 1 else 0 }

  function AccessPieces(op: Op, rt: Reg, rs: Reg, e: ImmExpr, known: bool, v: Int32): seq<Inst> {
    if known then [MakeI(LUI, 1, 0, Const(HighPart(v)))] + Indexed(rs) + [MakeI(op, rt, 1, Lower(Const(LowPart(v))))]
    else [MakeI(LUI, 1, 0, Upper(e))] + Indexed(rs) + [MakeI(op, rt, 1, Lower(e))]
  }

  /** produce_immediate */
  function ValuePieces(rt: Reg, e: ImmExpr, known: bool, v: Int32): seq<Inst> {
    if known && Lo16(Wrap(v)) == 0 then [MakeI(LUI, rt, 0, Upper(e))]
    else if known && Hi16(Wrap(v)) == 0 then [MakeI(ORI, rt, 0, Lower(e))]
    else [MakeI(LUI, 1, 0, Upper(e)), MakeI(ORI, rt, 1, Lower(e))]
  }

  function ComputePieces(op: Op, rt: Reg, rs: Reg, e: ImmExpr, known: bool, v: Int32): seq<Inst> {
    if LoadsDirectly(op, rs) then ValuePieces(rt, e, known, v)
    else ValuePieces(1, e, known, v) + if ImmOpToOp(op).Some? then [MakeR(ImmOpToOp(op).value, rt, rs, 1)] else []
  }

  /** i_type_inst_full_word for an expression that $gp does not reach. */
  function WidePieces(op: Op, rt: Reg, rs: Reg, e: ImmExpr, known: bool, v: Int32): seq<Inst> {
    if IsLoadStore(op) then AccessPieces(op, rt, rs, e, known, v)
    else if IsBranch(op) then [MakeI(op, rt, rs, Lower(e))]
    else ComputePieces(op, rt, rs, e, known, v)
  }

  function ConstPieces(op: Op, rt: Reg, rs: Reg, e: ImmExpr, labels: Labels): seq<Inst> {
    if FitsField(op, e, labels) then [MakeI(op, rt, rs, e)] else WidePieces(op, rt, rs, e, true, Eval(e, labels))
  }

  function GpOp(op: Op): Op { if op.LUI? then ADDIU else op }

  /** The special case, of a displacement that sign-extends by itself. */
  predicate SpecialCase(op: Op, known: bool, v: Int32) { IsLoadStore(op) && known && SignExtends(v) }

  predicate ReachedByGp(op: Op, rs: Reg, e: ImmExpr, labels: Labels) { !IsBranch(op) && GpReaches(e, rs, labels) }

  /** i_type_inst */
  function Pieces(op: Op, rt: Reg, rs: Reg, e: ImmExpr, labels: Labels): seq<Inst> {
    if Single(op, e, labels) then [MakeI(op, rt, rs, e)]
    else if ReachedByGp(op, rs, e, labels) then ConstPieces(GpOp(op), rt, 28, GpOffset(e, labels), labels)
    else WidePieces(op, rt, rs, e, Defined(e, labels), KnownValue(e, labels))
  }

  function KnownValue(e: ImmExpr, labels: Labels): Int32 { if Defined(e, labels) then Eval(e, labels) else 0 }

  // ---------- Constants that no sequence holds ----------

  /** A computation on a wide constant that has no form on registers: traps, for instance. */
  predicate NoForm(op: Op, rs: Reg) {
    !IsLoadStore(op) && !IsBranch(op) && !LoadsDirectly(op, rs) && ImmOpToOp(op).None?
  }

  predicate ConstInexpressible(op: Op, rs: Reg, e: ImmExpr, labels: Labels) {
    !FitsField(op, e, labels) && NoForm(op, rs)
  }

  predicate WideInexpressible(op: Op, rs: Reg, e: ImmExpr, labels: Labels, known: bool, v: Int32) {
    if ReachedByGp(op, rs, e, labels) then ConstInexpressible(GpOp(op), 28, GpOffset(e, labels), labels)
    else if SpecialCase(op, known, v) then ConstInexpressible(op, rs, Const(LowPart(v)), labels)
    else NoForm(op, rs)
  }

  predicate Inexpressible(op: Op, rs: Reg, e: ImmExpr, labels: Labels) {
    !Single(op, e, labels) && WideInexpressible(op, rs, e, labels, Defined(e, labels), KnownValue(e, labels))
  }

  lemma WideIs(op: Op, rt: Reg, rs: Reg, e: ImmExpr, known: bool, v: Int32)
    ensures var code := WidePieces(op, rt, rs, e, known, v);
            if IsLoadStore(op) then code == AccessPieces(op, rt, rs, e, known, v) && !NoForm(op, rs)
            else if IsBranch(op) then code == [MakeI(op, rt, rs, Lower(e))] && !NoForm(op, rs)
            else
              && code == ComputePieces(op, rt, rs, e, known, v)
              && NoForm(op, rs) == (!LoadsDirectly(op, rs) && ImmOpToOp(op).None?)
  {
    hide AccessPieces, ComputePieces, IsLoadStore, IsBranch, LoadsDirectly, ImmOpToOp;
  }

  lemma ConstExpressed(op: Op, rs: Reg, v: Int32, labels: Labels)
    ensures Inexpressible(op, rs, Const(v), labels) == ConstInexpressible(op, rs, Const(v), labels)
  {
    hide NoForm, FitsField, IsBranch, SignExtends;
    if !FitsField(op, Const(v), labels) && IsLoadStore(op) { WideIsNotSpecial(op, Const(v), labels); }
  }

  /** One to three instructions. */
  lemma PiecesCount(op: Op, rt: Reg, rs: Reg, e: ImmExpr, labels: Labels)
    ensures 1 <= |Pieces(op, rt, rs, e, labels)| <= 3
  {
    hide Single, WidePieces, FitsField;
    WideCount(op, rt, rs, e, Defined(e, labels), KnownValue(e, labels));
    var g := GpOffset(e, labels);
    WideCount(GpOp(op), rt, 28, g, true, Eval(g, labels));
  }

  lemma WideCount(op: Op, rt: Reg, rs: Reg, e: ImmExpr, known: bool, v: Int32)
    ensures 1 <= |WidePieces(op, rt, rs, e, known, v)| <= 3
  {
    hide IsLoadStore, IsBranch, ComputePieces, AccessPieces;
    ComputeCount(op, rt, rs, e, known, v);
    AccessCount(op, rt, rs, e, known, v);
  }

  lemma ComputeCount(op: Op, rt: Reg, rs: Reg, e: ImmExpr, known: bool, v: Int32)
    ensures 1 <= |ComputePieces(op, rt, rs, e, known, v)| <= 3
  {
    hide LoadsDirectly, ImmOpToOp, ValuePieces;
    ValueCount(rt, e, known, v);
    ValueCount(1, e, known, v);
  }

  lemma ValueCount(rt: Reg, e: ImmExpr, known: bool, v: Int32)
    ensures 1 <= |ValuePieces(rt, e, known, v)| <= 2
  {
    hide Lo16, Hi16, Wrap;
  }

  lemma AccessCount(op: Op, rt: Reg, rs: Reg, e: ImmExpr, known: bool, v: Int32)
    ensures |AccessPieces(op, rt, rs, e, known, v)| == if rs != 0 then 3 else 2
  {
    hide HighPart, LowPart;
  }

  // ---------- Emitting them ----------

  function EmitAll(m: Object, code: seq<Inst>): (r: Object)
    requires m.next + |code| <= |m.text|
    ensures |r.text| == |m.text| && r.next == m.next + |code|
    decreases |code|
  {
    if code == [] then m else EmitAll(Emit(m, code[0]), code[1..])
  }

  lemma {:induction false} EmitAllAppends(m: Object, xs: seq<Inst>, ys: seq<Inst>)
    requires m.next + |xs| + |ys| <= |m.text|
    ensures EmitAll(m, xs + ys) == EmitAll(EmitAll(m, xs), ys)
    decreases |xs|
  {
    if xs == [] {
      assert xs + ys == ys;
    } else {
      assert (xs + ys)[1..] == xs[1..] + ys;
      EmitAllAppends(Emit(m, xs[0]), xs[1..], ys);
    }
  }

  lemma {:induction false} EmitAllKeeps(m: Object, code: seq<Inst>)
    requires m.next + |code| <= |m.text|
    ensures Keeps(m, EmitAll(m, code))
    decreases |code|
  {
    if code != [] {
      var m' := Emit(m, code[0]);
      EmitKeeps(m, code[0]);
      EmitAllKeeps(m', code[1..]);
      KeepsTwice(m, m', EmitAll(m', code[1..]));
    }
  }

  lemma {:induction false} EmitAllOne(m: Object, i: Inst)
    requires m.next < |m.text|
    ensures EmitAll(m, [i]) == Emit(m, i)
  {
    assert [i][1..] == [];
    assert EmitAll(Emit(m, i), []) == Emit(m, i);
  }

  /** Halves of an expression take one instruction. */
  lemma HalfIsSingle(op: Op, e: ImmExpr, labels: Labels)
    requires e.bits != 0 && (op.LUI? || op.ORI? || IsLoadStore(op) || IsBranch(op))
    ensures Single(op, e, labels)
  {
  }

  /** The assembler never meets its special case when a displacement does not fit. */
  lemma WideIsNotSpecial(op: Op, e: ImmExpr, labels: Labels)
    requires IsLoadStore(op) && !FitsField(op, e, labels)
    ensures !SignExtends(Eval(e, labels))
  {
  }

  /** A small enough constant takes one instruction, whatever its sign. */
  lemma ConstIsSingle(op: Op, v: Int32, labels: Labels)
    requires if ExtendsSign(op) then -0x8000 <= v < 0x8000 else 0 <= v < 0x1_0000
    ensures FitsField(op, Const(v), labels) && Single(op, Const(v), labels)
  {
    hide ExtendsSign, IsLoadStore;
  }

  lemma HighHalfFits(v: Int32)
    requires !SignExtends(v)
    ensures 0 <= HighPart(v) < 0x1_0000
  {
  }

  lemma SinglePieces(op: Op, rt: Reg, rs: Reg, e: ImmExpr, labels: Labels)
    requires Single(op, e, labels)
    ensures Pieces(op, rt, rs, e, labels) == [MakeI(op, rt, rs, e)]
  {
  }

  /** From here the special case is never met. */
  lemma PiecesWide(op: Op, rt: Reg, rs: Reg, e: ImmExpr, labels: Labels)
    requires !Single(op, e, labels) && !ReachedByGp(op, rs, e, labels)
    ensures Pieces(op, rt, rs, e, labels) == WidePieces(op, rt, rs, e, Defined(e, labels), KnownValue(e, labels))
    ensures !SpecialCase(op, Defined(e, labels), KnownValue(e, labels))
  {
    if IsLoadStore(op) && Defined(e, labels) { WideIsNotSpecial(op, e, labels); }
  }

  lemma PiecesGp(op: Op, rt: Reg, rs: Reg, e: ImmExpr, labels: Labels)
    requires !Single(op, e, labels) && ReachedByGp(op, rs, e, labels)
    ensures Pieces(op, rt, rs, e, labels) == ConstPieces(GpOp(op), rt, 28, GpOffset(e, labels), labels)
  {
  }

  /** A constant cannot be reached off $gp. */
  lemma PiecesOfConst(op: Op, rt: Reg, rs: Reg, v: Int32, labels: Labels)
    ensures Pieces(op, rt, rs, Const(v), labels) == ConstPieces(op, rt, rs, Const(v), labels)
  {
    if FitsField(op, Const(v), labels) {
      SinglePieces(op, rt, rs, Const(v), labels);
    } else {
      PiecesWide(op, rt, rs, Const(v), labels);
    }
  }

  // ---------- Why the expansion ends ----------

  /** How far an expansion can still recurse. */
  function InstRank(op: Op, e: ImmExpr, labels: Labels): nat {
    if Single(op, e, labels) then 0 else if e.symbol.None? then 2 else 6
  }

  function WideRank(op: Op, e: ImmExpr, rs: Reg, known: bool, value: Int32, labels: Labels): nat {
    if ReachedByGp(op, rs, e, labels) then 5 else if SpecialCase(op, known, value) then 3 else 1
  }

  /** From i_type_inst to i_type_inst_full_word. */
  lemma RankDrops(op: Op, rt: Reg, rs: Reg, e: ImmExpr, labels: Labels)
    requires !Single(op, e, labels)
    ensures WideRank(op, e, rs, Defined(e, labels), KnownValue(e, labels), labels) < InstRank(op, e, labels)
  {
    if !ReachedByGp(op, rs, e, labels) { PiecesWide(op, rt, rs, e, labels); }
  }

  lemma RankOfConst(op: Op, v: Int32, labels: Labels)
    ensures InstRank(op, Const(v), labels) <= 2
  {
  }

  /** And back, with each of the expressions that it passes on. */
  lemma WideRankDrops(op: Op, rs: Reg, e: ImmExpr, known: bool, v: Int32, labels: Labels)
    ensures var rank := WideRank(op, e, rs, known, v, labels);
            if ReachedByGp(op, rs, e, labels) then InstRank(GpOp(op), GpOffset(e, labels), labels) < rank
            else if SpecialCase(op, known, v) then InstRank(op, Const(LowPart(v)), labels) < rank
            else
              && InstRank(LUI, Upper(e), labels) < rank && InstRank(ORI, Lower(e), labels) < rank
              && (IsLoadStore(op) || IsBranch(op) ==> InstRank(op, Lower(e), labels) < rank)
              && (IsLoadStore(op) && known ==> InstRank(LUI, Const(HighPart(v)), labels) < rank)
              && (IsLoadStore(op) ==> InstRank(op, Lower(Const(LowPart(v))), labels) < rank)
  {
    hide Single, ReachedByGp, SpecialCase, GpOp, GpOffset, IsLoadStore, IsBranch, HighPart, LowPart, Const, Upper, Lower;
    RankOfConst(op, LowPart(v), labels);
    if IsLoadStore(op) && known && !SpecialCase(op, known, v) { HighOfWide(op, v, labels); }
    ConstHasNoSymbol(e, labels);
    HalvesSingle(op, e, labels);
    HalvesSingle(op, Const(LowPart(v)), labels);
  }

  lemma HighOfWide(op: Op, v: Int32, labels: Labels)
    requires IsLoadStore(op) && !SpecialCase(op, true, v)
    ensures Single(LUI, Const(HighPart(v)), labels)
  {
    hide Single, HighPart, IsLoadStore, SignExtends;
    HighSingle(v, labels);
  }

  lemma HighSingle(v: Int32, labels: Labels)
    requires !SignExtends(v)
    ensures Single(LUI, Const(HighPart(v)), labels)
  {
    hide Single, HighPart, SignExtends;
    HighHalfFits(v);
    ConstIsSingle(LUI, HighPart(v), labels);
  }

  lemma ConstHasNoSymbol(e: ImmExpr, labels: Labels)
    ensures GpOffset(e, labels).symbol.None?
  {
  }

  lemma HalvesSingle(op: Op, e: ImmExpr, labels: Labels)
    ensures Single(LUI, Upper(e), labels) && Single(ORI, Lower(e), labels)
    ensures IsLoadStore(op) || IsBranch(op) ==> Single(op, Lower(e), labels)
  {
    hide IsLoadStore, IsBranch, Single;
    HalfIsSingle(LUI, Upper(e), labels);
    HalfIsSingle(ORI, Lower(e), labels);
    if IsLoadStore(op) || IsBranch(op) { HalfIsSingle(op, Lower(e), labels); }
  }
}
