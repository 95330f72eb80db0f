/** Statements whose label is not yet defined: what their emission records, and why later
    statements leave them alone. */
module Pending {
  import opened Word
  import opened Instruction
  import opened Codec
  import opened Linker
  import opened Expansion
  import opened Statements
  import opened ForwardRefs

  /** A statement whose symbol is defined does what it asks for; any other one waits. */
  predicate EntryOk(e: Entry, t: seq<Slot>, labels: Labels) {
    if Defined(e.e, labels) then Done(t, e, labels) else Waits(t, e)
  }

  // ---------- What waiting instructions look like ----------

  /** Only expressions in this symbol. */
  predicate AllOf(code: seq<Inst>, sym: Option<string>) {
    forall k | 0 <= k < |code| :: code[k].expr.Some? ==> code[k].expr.value.symbol == sym
  }

  lemma OneOf(op: Op, rt: Reg, rs: Reg, x: ImmExpr)
    ensures AllOf([MakeI(op, rt, rs, x)], x.symbol)
  {
  }

  lemma JoinOf(xs: seq<Inst>, ys: seq<Inst>, sym: Option<string>)
    requires AllOf(xs, sym) && AllOf(ys, sym)
    ensures AllOf(xs + ys, sym)
  {
  }

  lemma OpenCodeOf(op: Op, rt: Reg, rs: Reg, e: ImmExpr)
    ensures AllOf(OpenCode(op, rt, rs, e), e.symbol)
  {
    if IsJump(op) { OneOf(op, rt, rs, e); }
    else if IsLoadStore(op) { AccessPiecesOf(op, rt, rs, e); }
    else if IsBranch(op) { OneOf(op, rt, rs, Lower(e)); }
    else { ComputeOf(op, rt, rs, e); }
  }

  lemma AccessPiecesOf(op: Op, rt: Reg, rs: Reg, e: ImmExpr)
    ensures AllOf(AccessPieces(op, rt, rs, e, false, 0), e.symbol)
  {
    OneOf(LUI, 1, 0, Upper(e));
    OneOf(op, rt, 1, Lower(e));
    JoinOf([MakeI(LUI, 1, 0, Upper(e))], Indexed(rs), e.symbol);
    JoinOf([MakeI(LUI, 1, 0, Upper(e))] + Indexed(rs), [MakeI(op, rt, 1, Lower(e))], e.symbol);
  }

  lemma ValueOnlyOf(rt: Reg, e: ImmExpr)
    ensures AllOf(ValuePieces(rt, e, false, 0), e.symbol)
  {
  }

  lemma ComputeOf(op: Op, rt: Reg, rs: Reg, e: ImmExpr)
    ensures AllOf(ComputePieces(op, rt, rs, e, false, 0), e.symbol)
  {
    ValueOnlyOf(rt, e);
    ValueOnlyOf(1, e);
    if ImmOpToOp(op).Some? {
      JoinOf(ValuePieces(1, e, false, 0), [MakeR(ImmOpToOp(op).value, rt, rs, 1)], e.symbol);
    }
  }

  // ---------- Emission leaves the earlier statements as they are ----------

  lemma FulfilsStays(t: seq<Slot>, u: seq<Slot>, a: nat, b: nat, op: Op, rt: Reg, rs: Reg, v: Word)
    requires a <= b <= |t| == |u| && Fulfils(t, a, b, op, rt, rs, v)
    requires forall k | a <= k < b :: Alike(t[k], u[k])
    ensures Fulfils(u, a, b, op, rt, rs, v)
  {
    if IsLoadStore(op) {
      AccessesStays(t, u, a, b, op, rt, rs, v);
    } else if IsBranch(op) || IsJump(op) {
      assert Alike(t[a], u[a]);
    } else if op.LUI? {
      LoadsUpperStays(t, u, a, b, rt, rs, v);
    } else {
      ComputesStays(t, u, a, b, op, rt, rs, v);
    }
  }

  lemma DoneStays(m: Object, r: Object, e: Entry)
    requires Keeps(m, r) && e.end <= m.next && Done(m.text, e, m.labels)
    ensures Done(r.text, e, r.labels)
  {
    SameDefined(Placed(e.e, e.at), m.labels, r.labels);
    forall k | e.at <= k < e.end ensures Alike(m.text[k], r.text[k]) {
      SameAlike(m.text[k], r.text[k], m.labels);
    }
    FulfilsStays(m.text, r.text, e.at, e.end, e.op, e.rt, e.rs, ValueOf(e, m.labels));
  }

  /** An instruction that waits, or takes no expression, is not touched by a look back. */
  predicate Untouchable(i: Inst, labels: Labels) { i.expr.Some? ==> !Defined(i.expr.value, labels) }

  lemma UntouchableStays(a: Slot, b: Slot, i: Inst, labels: Labels)
    requires a == Slot.Some(Encoded(i)) && Untouchable(i, labels) && Same(a, b, labels)
    ensures b == a
  {
  }

  lemma WaitsStays(m: Object, r: Object, e: Entry)
    requires Keeps(m, r) && e.end <= m.next && Waits(m.text, e) && !Defined(e.e, m.labels)
    ensures Waits(r.text, e)
  {
    var code := OpenCode(e.op, e.rt, e.rs, e.e);
    OpenCodeOf(e.op, e.rt, e.rs, e.e);
    forall k | 0 <= k < |code| ensures r.text[e.at + k] == Slot.Some(Encoded(code[k])) {
      UntouchableStays(m.text[e.at + k], r.text[e.at + k], code[k], m.labels);
    }
  }

  lemma EntryStays(m: Object, r: Object, e: Entry)
    requires Keeps(m, r) && e.end <= m.next && EntryOk(e, m.text, m.labels)
    ensures EntryOk(e, r.text, r.labels)
  {
    SameDefined(e.e, m.labels, r.labels);
    if Defined(e.e, m.labels) { DoneStays(m, r, e); } else { WaitsStays(m, r, e); }
  }

  // ---------- A statement with a known value ----------

  predicate AllKnown(code: seq<Inst>, labels: Labels) {
    forall k | 0 <= k < |code| :: code[k].expr.Some? ==> Defined(code[k].expr.value, labels)
  }

  /** Nothing is recorded for instructions whose expressions are defined. */
  lemma {:induction false} KnownEmit(m: Object, code: seq<Inst>)
    requires m.next + |code| <= |m.text| && AllKnown(code, m.labels)
    ensures EmitAll(m, code).labels == m.labels
    decreases |code|
  {
    if code != [] {
      assert code[0].expr.Some? ==> Defined(code[0].expr.value, m.labels);
      KnownEmit(Emit(m, code[0]), code[1..]);
    }
  }

  lemma PiecesKnown(op: Op, rt: Reg, rs: Reg, e: ImmExpr, labels: Labels)
    requires Defined(e, labels) && !ReachedByGp(op, rs, e, labels)
    ensures AllKnown(Pieces(op, rt, rs, e, labels), labels)
  {
    if Single(op, e, labels) {
      SinglePieces(op, rt, rs, e, labels);
    } else {
      PiecesWide(op, rt, rs, e, labels);
      WidePiecesKnown(op, rt, rs, e, KnownValue(e, labels), labels);
    }
  }

  lemma WidePiecesKnown(op: Op, rt: Reg, rs: Reg, e: ImmExpr, v: Int32, labels: Labels)
    requires Defined(e, labels)
    ensures AllKnown(WidePieces(op, rt, rs, e, true, v), labels)
  {
    if IsLoadStore(op) {
      AccessPiecesKnown(op, rt, rs, e, v, labels);
    } else if !IsBranch(op) {
      ComputePiecesKnown(op, rt, rs, e, v, labels);
    }
  }

  lemma AccessPiecesKnown(op: Op, rt: Reg, rs: Reg, e: ImmExpr, v: Int32, labels: Labels)
    ensures AllKnown(AccessPieces(op, rt, rs, e, true, v), labels)
  {
    assert AllKnown(Indexed(rs), labels);
  }

  lemma ComputePiecesKnown(op: Op, rt: Reg, rs: Reg, e: ImmExpr, v: Int32, labels: Labels)
    requires Defined(e, labels)
    ensures AllKnown(ComputePieces(op, rt, rs, e, true, v), labels)
  {
    ValuePiecesKnown(rt, e, v, labels);
    ValuePiecesKnown(1, e, v, labels);
  }

  lemma ValuePiecesKnown(rt: Reg, e: ImmExpr, v: Int32, labels: Labels)
    requires Defined(e, labels)
    ensures AllKnown(ValuePieces(rt, e, true, v), labels)
  {
  }

  // ---------- A statement that waits ----------

  /** The slots of those of the instructions that have an expression, the last one first. */
  function WaitingAt(code: seq<Inst>, at: nat): seq<nat>
    decreases |code|
  {
    if code == [] then [] else WaitingAt(code[1..], at + 1) + if code[0].expr.Some? then [at] else []
  }

  predicate AllWait(code: seq<Inst>, sym: string, labels: Labels) {
    AddressOf(sym, labels) == 0 && forall k | 0 <= k < |code| :: code[k].expr.Some? ==>
      code[k].expr.value.symbol == Some(sym)
  }

  /** u is t with the instructions of code, encoded, from slot n on. */
  predicate Written(t: seq<Slot>, u: seq<Slot>, n: nat, code: seq<Inst>) {
    && |u| == |t| && n + |code| <= |t|
    && (forall k | 0 <= k < |code| :: u[n + k] == Slot.Some(Encoded(code[k])))
    && Outside(t, u, n, n + |code|)
  }

  /** The labels have changed in nothing but more uses of sym. */
  ghost predicate Noted(before: Labels, after: Labels, sym: string, uses: seq<nat>) {
    && LabelOf(sym, after) == LabelOf(sym, before).(uses := uses + LabelOf(sym, before).uses)
    && forall name: string :: name != sym ==> LabelOf(name, after) == LabelOf(name, before)
  }

  lemma EmitWaiting(m: Object, i: Inst, sym: string)
    requires m.next < |m.text| && AllWait([i], sym, m.labels)
    ensures Written(m.text, Emit(m, i).text, m.next, [i])
    ensures Noted(m.labels, Emit(m, i).labels, sym, if i.expr.Some? then [m.next] else [])
  {
    var r := Emit(m, i);
    assert [i][0].expr.Some? ==> i.expr.value.symbol == Some(sym);
    forall k | 0 <= k < |m.text| ensures r.text[k] == if k == m.next then Slot.Some(Encoded(i)) else m.text[k] {
      assert r.text[k] == SlotAfter(m, i, k);
    }
    assert LabelOf(sym, m.labels).uses == [] + LabelOf(sym, m.labels).uses;
  }

  lemma WrittenTwice(t: seq<Slot>, u: seq<Slot>, w: seq<Slot>, n: nat, i: Inst, rest: seq<Inst>, code: seq<Inst>)
    requires Written(t, u, n, [i]) && Written(u, w, n + 1, rest) && code == [i] + rest
    ensures Written(t, w, n, code)
  {
    forall k | 0 <= k < |code| ensures w[n + k] == Slot.Some(Encoded(code[k])) {
      if k == 0 {
        assert u[n + 0] == Slot.Some(Encoded([i][0]));
      } else {
        assert w[n + 1 + (k - 1)] == Slot.Some(Encoded(rest[k - 1]));
      }
    }
  }

  lemma NotedTwice(a: Labels, b: Labels, c: Labels, sym: string, xs: seq<nat>, ys: seq<nat>)
    requires Noted(a, b, sym, xs) && Noted(b, c, sym, ys)
    ensures Noted(a, c, sym, ys + xs)
  {
    assert ys + (xs + LabelOf(sym, a).uses) == ys + xs + LabelOf(sym, a).uses;
  }

  lemma {:induction false} PendingEmit(m: Object, code: seq<Inst>, sym: string)
    requires m.next + |code| <= |m.text| && AllWait(code, sym, m.labels)
    ensures Written(m.text, EmitAll(m, code).text, m.next, code)
    ensures Noted(m.labels, EmitAll(m, code).labels, sym, WaitingAt(code, m.next))
    decreases |code|
  {
    if code == [] {
      assert [] + LabelOf(sym, m.labels).uses == LabelOf(sym, m.labels).uses;
    } else {
      var i, rest := code[0], code[1..];
      var m1 := Emit(m, i);
      EmitWaiting(m, i, sym);
      PendingEmit(m1, rest, sym);
      WrittenTwice(m.text, m1.text, EmitAll(m1, rest).text, m.next, i, rest, code);
      NotedTwice(m.labels, m1.labels, EmitAll(m1, rest).labels, sym, if i.expr.Some? then [m.next] else [], WaitingAt(rest, m.next + 1));
    }
  }

  lemma WaitingAtTwo(x: Inst, y: Inst, at: nat)
    requires x.expr.Some? && y.expr.Some?
    ensures WaitingAt([x, y], at) == [at + 1, at]
  {
    assert [x, y][1..] == [y] && [y][1..] == [];
    assert WaitingAt([y], at + 1) == WaitingAt([], at + 2) + [at + 1];
  }

  lemma WaitingAtThree(x: Inst, y: Inst, z: Inst, at: nat)
    requires x.expr.Some? && (y.expr.Some? != z.expr.Some?)
    ensures WaitingAt([x, y, z], at) == [if z.expr.Some? then at + 2 else at + 1, at]
  {
    assert [x, y, z][1..] == [y, z] && [y, z][1..] == [z] && [z][1..] == [];
    assert WaitingAt([z], at + 2) == WaitingAt([], at + 3) + if z.expr.Some? then [at + 2] else [];
  }

  lemma WaitingAtOne(op: Op, rt: Reg, rs: Reg, x: ImmExpr, at: nat, code: seq<Inst>)
    requires code == [MakeI(op, rt, rs, x)]
    ensures WaitingAt(code, at) == [at]
  {
    assert code[1..] == [];
  }

  /** The list of uses that a waiting statement adds to. */
  lemma OpenCodeUses(op: Op, rt: Reg, rs: Reg, e: ImmExpr, at: nat, code: seq<Inst>)
    requires MayWait(op, rs, e) && code == OpenCode(op, rt, rs, e)
    ensures WaitingAt(code, at) == UsesOf(op, rs, at)
  {
    if IsJump(op) || IsBranch(op) {
      WaitingAtOne(op, rt, rs, if IsJump(op) then e else Lower(e), at, code);
    } else {
      WideUses(op, rt, rs, e, at, code);
    }
  }

  lemma WideUses(op: Op, rt: Reg, rs: Reg, e: ImmExpr, at: nat, code: seq<Inst>)
    requires !IsBranch(op) && !IsJump(op) && code == WidePieces(op, rt, rs, e, false, 0)
    requires IsLoadStore(op) || LoadsDirectly(op, rs) || ImmOpToOp(op).Some?
    ensures WaitingAt(code, at) == UsesOf(op, rs, at)
  {
    if IsLoadStore(op) { AccessUses(op, rt, rs, e, at, code); } else { ComputeUses(op, rt, rs, e, at, code); }
  }

  lemma AccessUses(op: Op, rt: Reg, rs: Reg, e: ImmExpr, at: nat, code: seq<Inst>)
    requires code == AccessPieces(op, rt, rs, e, false, 0)
    ensures WaitingAt(code, at) == if rs != 0 then [at + 2, at] else [at + 1, at]
  {
    var x, z := MakeI(LUI, 1, 0, Upper(e)), MakeI(op, rt, 1, Lower(e));
    if rs != 0 {
      assert code == [x, MakeR(ADDU, 1, 1, rs), z];
      WaitingAtThree(x, MakeR(ADDU, 1, 1, rs), z, at);
    } else {
      assert code == [x, z];
      WaitingAtTwo(x, z, at);
    }
  }

  lemma ComputeUses(op: Op, rt: Reg, rs: Reg, e: ImmExpr, at: nat, code: seq<Inst>)
    requires (LoadsDirectly(op, rs) || ImmOpToOp(op).Some?) && code == ComputePieces(op, rt, rs, e, false, 0)
    ensures WaitingAt(code, at) == [at + 1, at]
  {
    var x, y := MakeI(LUI, 1, 0, Upper(e)), MakeI(ORI, if LoadsDirectly(op, rs) then rt else 1, 1, Lower(e));
    if LoadsDirectly(op, rs) {
      assert code == [x, y];
      WaitingAtTwo(x, y, at);
    } else {
      var z := MakeR(ImmOpToOp(op).value, rt, rs, 1);
      assert code == [x, y, z];
      WaitingAtThree(x, y, z, at);
    }
  }
}
