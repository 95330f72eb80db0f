/** Filling the immediate fields of instructions from the expressions they came from, as values:
    the text under assembly, the labels, and the effect of resolving one use of a label. */
module Linker {
  import opened Word
  import opened Instruction
  import opened Codec
  import Isa

  /** A symbol table entry. The address is 0 until the label is defined; `uses` holds the
      locations of the instructions that wait for it, the latest first. */
  datatype Label = Label(addr: Word, gp: bool, uses: seq<nat>)

  type Labels = map<string, Label>

  /** The program so far: `next` numbers the text slot that the next instruction goes to. */
  datatype Object = Object(text: seq<Slot>, next: nat, labels: Labels)

  function PC(slot: int): Word { Wrap(Isa.TEXT_BOT + 4 * slot) }

  /** The entry for a name, which is as good as there once the name has been used. */
  function LabelOf(sym: string, labels: Labels): Label { if sym in labels then labels[sym] else Label(0, false, []) }

  function AddressOf(sym: string, labels: Labels): Word { LabelOf(sym, labels).addr }

  predicate Defined(e: ImmExpr, labels: Labels) { e.symbol.None? || AddressOf(e.symbol.value, labels) != 0 }

  /** The value of an expression before a half is selected; 0 for an undefined symbol. */
  function Total(e: ImmExpr, labels: Labels): Word {
    if e.symbol.None? then Wrap(e.offset)
    else if Defined(e, labels) then Wrap(e.offset + AddressOf(e.symbol.value, labels))
    else 0
  }

  /** eval_imm_expr */
  function Eval(e: ImmExpr, labels: Labels): Int32 {
    var v := Total(e, labels);
    if e.bits > 0 then Hi16(v) else if e.bits < 0 then Lo16(v) else Signed(v)
  }

  function Upper(e: ImmExpr): ImmExpr { e.(bits := 1) }
  function Lower(e: ImmExpr): ImmExpr { e.(bits := -1) }
  function Const(v: Int32): ImmExpr { ImmExpr(v, None, 0, false) }

  /** Bit 15, the sign bit of a 16-bit field. */
  predicate Bit15(v: int) { v / 0x8000 % 2 == 1 }

  function SignEx(v: int): int { if Bit15(v) then v % 0x1_0000 - 0x1_0000 else v }

  function Encoded(i: Inst): Inst { i.(encoding := Encode(i)) }

  /** i with the field that its expression e fills. */
  function Filled(i: Inst, e: ImmExpr, labels: Labels): Inst {
    var v := Eval(e, labels);
    var j := i.(expr := Some(e));
    if IsBranch(i.op) then j.(imm := S16(SignEx(v) / 4))
    else if IsJump(i.op) then j.(target := Wrap(v) % 0x1000_0000 / 4)
    else j.(imm := S16(v))
  }

  /** The expression of an instruction at slot n: a branch is relative to its own place. */
  function Placed(e: ImmExpr, n: nat): ImmExpr {
    if e.pcRelative then e.(offset := Signed(Wrap(0x1_0000_0000 - PC(n)))) else e
  }

  // ---------- Looking back for the high half of an address ----------

  predicate IsOpenLui(s: Slot, sym: Option<string>) {
    s.Some? && s.value.op.LUI? && s.value.imm == 0 && s.value.expr.Some? && s.value.expr.value.symbol == sym
  }

  /** The LUI just before slot n, or before an ADDU before it, whose field is still zero. */
  function LookBack(text: seq<Slot>, n: nat, sym: Option<string>): Option<nat>
    requires n < |text|
  {
    if n >= 1 && IsOpenLui(text[n - 1], sym) then Some(n - 1)
    else if n >= 2 && IsOpenLui(text[n - 2], sym) then Some(n - 2)
    else None
  }

  function Bumped(i: Inst): Inst
    requires i.expr.Some?
  { i.(expr := Some(i.expr.value.(offset := Signed(Wrap(i.expr.value.offset + 0x1_0000))))) }

  /** The text after resolving a load or store at slot n: its sign-extended low half costs the
      high half 1. */
  function Compensated(text: seq<Slot>, n: nat, op: Op, e: ImmExpr, labels: Labels): (r: seq<Slot>)
    requires n < |text|
    ensures |r| == |text|
  {
    if !IsLoadStore(op) || !Bit15(Eval(e, labels)) then text
    else
      match LookBack(text, n, e.symbol)
      case None => text
      case Some(k) => text[k := Slot.Some(Bumped(text[k].value))]
  }

  // ---------- Emission ----------

  /** The entry for sym after one more use, at slot n. */
  function Recorded(labels: Labels, sym: string, n: nat): Labels {
    var l := LabelOf(sym, labels);
    labels[sym := l.(uses := [n] + l.uses)]
  }

  /** The instruction as it comes to stand in slot n: its field is filled in if the expression is
      defined. */
  function Settled(i: Inst, n: nat, labels: Labels): Inst {
    if i.expr.None? || !Defined(i.expr.value, labels) then i else Filled(i, Placed(i.expr.value, n), labels)
  }

  /** Slot k after emitting i: only the slot of i is new, and the LUI that i looks back to. */
  function SlotAfter(m: Object, i: Inst, k: nat): Slot
    requires m.next < |m.text| && k < |m.text|
  {
    if k == m.next then Slot.Some(Encoded(Settled(i, m.next, m.labels)))
    else if i.expr.None? || !Defined(i.expr.value, m.labels) then m.text[k]
    else Compensated(m.text, m.next, i.op, Placed(i.expr.value, m.next), m.labels)[k]
  }

  /** An undefined symbol gets one more use. */
  function LabelsAfter(m: Object, i: Inst): Labels {
    if i.expr.None? || Defined(i.expr.value, m.labels) then m.labels
    else Recorded(m.labels, i.expr.value.symbol.value, m.next)
  }

  /** Store an instruction in the next slot. */
  function Emit(m: Object, i: Inst): (r: Object)
    requires m.next < |m.text|
    ensures |r.text| == |m.text| && r.next == m.next + 1
  {
    Object(seq(|m.text|, k requires 0 <= k < |m.text| => SlotAfter(m, i, k)), m.next + 1, LabelsAfter(m, i))
  }

  /** Slot k after resolving the use at slot n. */
  function SlotResolved(text: seq<Slot>, n: nat, labels: Labels, k: nat): Slot
    requires n < |text| && k < |text|
  {
    if text[n].None? || text[n].value.expr.None? || !Defined(text[n].value.expr.value, labels) then text[k]
    else
      var i := text[n].value;
      var e := Placed(i.expr.value, n);
      if k == n then Slot.Some(Encoded(Filled(i, e, labels))) else Compensated(text, n, i.op, e, labels)[k]
  }

  function ResolveAt(text: seq<Slot>, n: nat, labels: Labels): (r: seq<Slot>)
    requires n < |text|
    ensures |r| == |text|
  {
    seq(|text|, k requires 0 <= k < |text| => SlotResolved(text, n, labels, k))
  }
}
