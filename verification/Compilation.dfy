/** A program assembled and then run: each statement of the finished text, wherever its label was
    defined, does on the machine what the statement says. */
module Compilation {
  import opened Word
  import opened Instruction
  import opened Codec
  import opened Linker
  import opened Expansion
  import opened Statements
  import opened ForwardRefs
  import opened Pending
  import opened Programs
  import opened Arithmetic
  import opened Control
  import opened Execution
  import Isa

  // ---------- No instruction is left with a symbol of another statement ----------

  /** The instruction in the slot has no symbol but sym. */
  predicate Only(s: Slot, sym: Option<string>) {
    s.Some? && (s.value.expr.Some? ==> s.value.expr.value.symbol == None || s.value.expr.value.symbol == sym)
  }

  predicate Clean(t: seq<Slot>, e: Entry) {
    e.at <= e.end <= |t| && forall k | e.at <= k < e.end :: Only(t[k], e.e.symbol)
  }

  ghost predicate AllClean(t: seq<Slot>, log: seq<Entry>) { forall e | e in log :: Clean(t, e) }

  predicate CodeOnly(code: seq<Inst>, sym: Option<string>) {
    forall k | 0 <= k < |code| :: Only(Slot.Some(code[k]), sym)
  }

  lemma CodeOnlyOne(op: Op, rt: Reg, rs: Reg, x: ImmExpr, sym: Option<string>)
    requires x.symbol == None || x.symbol == sym
    ensures CodeOnly([MakeI(op, rt, rs, x)], sym)
  {
  }

  lemma CodeOnlyJoin(xs: seq<Inst>, ys: seq<Inst>, sym: Option<string>)
    requires CodeOnly(xs, sym) && CodeOnly(ys, sym)
    ensures CodeOnly(xs + ys, sym)
  {
  }

  lemma AccessOnly(op: Op, rt: Reg, rs: Reg, e: ImmExpr, known: bool, v: Int32)
    ensures CodeOnly(AccessPieces(op, rt, rs, e, known, v), e.symbol)
  {
    var hi := if known then Const(HighPart(v)) else Upper(e);
    var lo := if known then Lower(Const(LowPart(v))) else Lower(e);
    CodeOnlyOne(LUI, 1, 0, hi, e.symbol);
    CodeOnlyOne(op, rt, 1, lo, e.symbol);
    CodeOnlyJoin([MakeI(LUI, 1, 0, hi)], Indexed(rs), e.symbol);
    CodeOnlyJoin([MakeI(LUI, 1, 0, hi)] + Indexed(rs), [MakeI(op, rt, 1, lo)], e.symbol);
  }

  lemma ValueOnly(rt: Reg, e: ImmExpr, known: bool, v: Int32)
    ensures CodeOnly(ValuePieces(rt, e, known, v), e.symbol)
  {
  }

  lemma ComputeOnly(op: Op, rt: Reg, rs: Reg, e: ImmExpr, known: bool, v: Int32)
    ensures CodeOnly(ComputePieces(op, rt, rs, e, known, v), e.symbol)
  {
    hide LoadsDirectly, ImmOpToOp, ValuePieces;
    ValueOnly(rt, e, known, v);
    ValueOnly(1, e, known, v);
    if ImmOpToOp(op).Some? {
      CodeOnlyJoin(ValuePieces(1, e, known, v), [MakeR(ImmOpToOp(op).value, rt, rs, 1)], e.symbol);
    } else {
      CodeOnlyJoin(ValuePieces(1, e, known, v), [], e.symbol);
    }
  }

  lemma WideOnly(op: Op, rt: Reg, rs: Reg, e: ImmExpr, known: bool, v: Int32)
    ensures CodeOnly(WidePieces(op, rt, rs, e, known, v), e.symbol)
  {
    hide IsLoadStore, IsBranch, AccessPieces, ComputePieces;
    if IsLoadStore(op) { AccessOnly(op, rt, rs, e, known, v); }
    else if IsBranch(op) { CodeOnlyOne(op, rt, rs, Lower(e), e.symbol); }
    else { ComputeOnly(op, rt, rs, e, known, v); }
  }

  lemma PiecesOnly(op: Op, rt: Reg, rs: Reg, e: ImmExpr, labels: Labels)
    requires !ReachedByGp(op, rs, e, labels)
    ensures CodeOnly(Pieces(op, rt, rs, e, labels), e.symbol)
  {
    hide Single, WidePieces, ReachedByGp;
    if Single(op, e, labels) {
      CodeOnlyOne(op, rt, rs, e, e.symbol);
    } else {
      WideOnly(op, rt, rs, e, Defined(e, labels), KnownValue(e, labels));
    }
  }

  lemma SameOnly(a: Slot, b: Slot, labels: Labels, sym: Option<string>)
    requires Same(a, b, labels) && Only(a, sym)
    ensures Only(b, sym)
  {
  }

  lemma SettledOnly(i: Inst, n: nat, labels: Labels, sym: Option<string>)
    requires Only(Slot.Some(i), sym)
    ensures Only(Slot.Some(Encoded(Settled(i, n, labels))), sym)
  {
    hide IsBranch, IsJump, Encode, Defined, Eval;
  }

  /** The new slots. */
  lemma {:induction false} EmitAllOnly(m: Object, code: seq<Inst>, sym: Option<string>)
    requires m.next + |code| <= |m.text| && CodeOnly(code, sym)
    ensures forall k | m.next <= k < m.next + |code| :: Only(EmitAll(m, code).text[k], sym)
    decreases |code|
  {
    hide Only, Emit;
    if code != [] {
      var m1, r := Emit(m, code[0]), EmitAll(m, code);
      EmitAllOnly(m1, code[1..], sym);
      EmitWrites(m, code[0]);
      SettledOnly(code[0], m.next, m.labels, sym);
      EmitAllKeeps(m1, code[1..]);
      SameOnly(m1.text[m.next], r.text[m.next], m1.labels, sym);
    }
  }

  lemma CleanStays(m: Object, r: Object, e: Entry)
    requires Keeps(m, r) && e.end <= m.next && Clean(m.text, e)
    ensures Clean(r.text, e)
  {
    hide Same, Only;
    forall k | e.at <= k < e.end ensures Only(r.text[k], e.e.symbol) {
      SameOnly(m.text[k], r.text[k], m.labels, e.e.symbol);
    }
  }

  lemma AllCleanStays(m: Object, r: Object, log: seq<Entry>)
    requires Keeps(m, r) && Stacked(log, m.next) && AllClean(m.text, log)
    ensures AllClean(r.text, log)
  {
    hide Clean, Keeps;
    forall e | e in log ensures Clean(r.text, e) {
      StackedBelow(log, m.next, e);
      CleanStays(m, r, e);
    }
  }

  lemma ResolveOnly(t: seq<Slot>, n: nat, labels: Labels, k: nat, sym: Option<string>)
    requires n < |t| && k < |t| && Only(t[k], sym)
    ensures Only(ResolveAt(t, n, labels)[k], sym)
  {
    hide IsBranch, IsJump, IsLoadStore, Encode, Eval, Bit15;
    assert ResolveAt(t, n, labels)[k] == SlotResolved(t, n, labels, k);
  }

  lemma {:induction false} ResolveAllOnly(t: seq<Slot>, uses: seq<nat>, labels: Labels, k: nat, sym: Option<string>)
    requires (forall j | 0 <= j < |uses| :: uses[j] < |t|) && k < |t| && Only(t[k], sym)
    ensures Only(ResolveAll(t, uses, labels)[k], sym)
    decreases |uses|
  {
    hide Only, ResolveAt;
    if uses != [] {
      ResolveOnly(t, uses[0], labels, k, sym);
      ResolveAllOnly(ResolveAt(t, uses[0], labels), uses[1..], labels, k, sym);
    }
  }

  lemma DefineClean(m: Object, name: string, addr: Word, log: seq<Entry>)
    requires UsesWithin(m, Define(name, addr)) && AllClean(m.text, log)
    ensures AllClean(DefineLabel(m, name, addr).text, log)
  {
    hide Only;
    if AddressOf(name, m.labels) == 0 {
      var l := LabelOf(name, m.labels).(addr := addr);
      forall e | e in log ensures Clean(ResolveAll(m.text, l.uses, m.labels[name := l]), e) {
        ResolvedClean(m.text, l.uses, m.labels[name := l], e);
      }
    }
  }

  lemma ResolvedClean(t: seq<Slot>, uses: seq<nat>, labels: Labels, e: Entry)
    requires (forall j | 0 <= j < |uses| :: uses[j] < |t|) && Clean(t, e)
    ensures Clean(ResolveAll(t, uses, labels), e)
  {
    hide Only, ResolveAll;
    forall k | e.at <= k < e.end ensures Only(ResolveAll(t, uses, labels)[k], e.e.symbol) {
      ResolveAllOnly(t, uses, labels, k, e.e.symbol);
    }
  }

  lemma AllCleanOn(e: Entry, log: seq<Entry>, t: seq<Slot>)
    requires Clean(t, e) && AllClean(t, log)
    ensures AllClean(t, [e] + log)
  {
    hide Clean;
  }

  lemma EmissionClean(m: Object, log: seq<Entry>, code: seq<Inst>, e: Entry)
    requires m.next + |code| <= |m.text| && Stacked(log, m.next) && AllClean(m.text, log)
    requires CodeOnly(code, e.e.symbol) && e.at == m.next && e.end == m.next + |code|
    ensures AllClean(EmitAll(m, code).text, [e] + log)
  {
    hide Only, Keeps, EmitAll;
    EmitAllKeeps(m, code);
    AllCleanStays(m, EmitAll(m, code), log);
    EmitAllOnly(m, code, e.e.symbol);
    AllCleanOn(e, log, EmitAll(m, code).text);
  }

  lemma ImmediateClean(m: Object, log: seq<Entry>, st: Statement, e: Entry)
    requires Inv(m, log) && Legal(st, m) && AllClean(m.text, log) && EntryOf(st, m) == Some(e)
    ensures AllClean(Do(m, st).text, [e] + log)
  {
    hide AllClean, AllOk, UsesOk, Sound, Pieces, CodeOnly, EmitAll;
    if st.Immediate? {
      NoGp(st.op, st.rs, st.e, m.labels);
      PiecesOnly(st.op, st.rt, st.rs, st.e, m.labels);
    } else {
      CodeOnlyOne(st.op, 0, 0, Absolute(st.e), st.e.symbol);
    }
    EmissionClean(m, log, CodeOf(st, m), e);
  }

  lemma FixedClean(m: Object, log: seq<Entry>, i: Inst)
    requires Stacked(log, m.next) && m.next < |m.text| && AllClean(m.text, log)
    ensures AllClean(EmitAll(m, [i]).text, log)
  {
    hide AllClean, EmitAll, Keeps;
    EmitAllKeeps(m, [i]);
    AllCleanStays(m, EmitAll(m, [i]), log);
  }

  lemma DoClean(m: Object, log: seq<Entry>, st: Statement)
    requires Inv(m, log) && Legal(st, m) && AllClean(m.text, log) && UsesWithin(m, st)
    ensures AllClean(Do(m, st).text, Logged(log, EntryOf(st, m)))
  {
    hide AllOk, UsesOk, AllClean, Sound, Pieces, EmitAll, DefineLabel;
    match st
    case Immediate(_, _, _, _) => ImmediateClean(m, log, st, EntryOf(st, m).value);
    case Jump(_, _) => ImmediateClean(m, log, st, EntryOf(st, m).value);
    case Register(_, _, _, _) => FixedClean(m, log, FixedInst(st));
    case Shift(_, _, _, _) => FixedClean(m, log, FixedInst(st));
    case Define(name, addr) => DefineClean(m, name, addr, log);
  }

  lemma {:induction false} RunClean(sts: seq<Statement>, m: Object, log: seq<Entry>)
    requires LegalRun(sts, m) && Inv(m, log) && AllClean(m.text, log)
    ensures AllClean(Assembled(sts, m).text, LogOf(sts, m, log))
    decreases |sts|
  {
    hide Inv, AllClean, Sound, Pieces, EmitAll, DefineLabel, EntryOf, Logged;
    if sts != [] {
      DoPreserves(m, log, sts[0]);
      DoClean(m, log, sts[0]);
      RunClean(sts[1..], Do(m, sts[0]), Logged(log, EntryOf(sts[0], m)));
    }
  }

  // ---------- Instructions without an expression ----------

  /** The slot holds an instruction that nothing is filled into. */
  predicate Fixed(s: Slot) { s.Some? && s.value.expr.None? }

  lemma ResolveFixed(t: seq<Slot>, n: nat, labels: Labels, k: nat)
    requires n < |t| && k < |t| && Fixed(t[k])
    ensures ResolveAt(t, n, labels)[k] == t[k]
  {
    hide IsBranch, IsJump, IsLoadStore, Encode, Eval, Bit15;
    assert ResolveAt(t, n, labels)[k] == SlotResolved(t, n, labels, k);
  }

  lemma {:induction false} ResolveAllFixed(t: seq<Slot>, uses: seq<nat>, labels: Labels, k: nat)
    requires (forall j | 0 <= j < |uses| :: uses[j] < |t|) && k < |t| && Fixed(t[k])
    ensures ResolveAll(t, uses, labels)[k] == t[k]
    decreases |uses|
  {
    hide ResolveAt;
    if uses != [] {
      ResolveFixed(t, uses[0], labels, k);
      ResolveAllFixed(ResolveAt(t, uses[0], labels), uses[1..], labels, k);
    }
  }

  lemma DoFixed(m: Object, st: Statement, k: nat)
    requires Legal(st, m) && UsesWithin(m, st) && k < m.next && k < |m.text| && Fixed(m.text[k])
    ensures |Do(m, st).text| == |m.text| && m.next <= Do(m, st).next && Do(m, st).text[k] == m.text[k]
  {
    hide Sound, Pieces, EmitAll, ResolveAll;
    if st.Define? {
      if AddressOf(st.name, m.labels) == 0 {
        var l := LabelOf(st.name, m.labels).(addr := st.addr);
        ResolveAllFixed(m.text, l.uses, m.labels[st.name := l], k);
      }
    } else {
      EmitAllKeeps(m, CodeOf(st, m));
      assert Same(m.text[k], EmitAll(m, CodeOf(st, m)).text[k], m.labels);
    }
  }

  lemma {:induction false} RunFixed(sts: seq<Statement>, m: Object, k: nat)
    requires LegalRun(sts, m) && k < m.next && k < |m.text| && Fixed(m.text[k])
    ensures |Assembled(sts, m).text| == |m.text| && Assembled(sts, m).text[k] == m.text[k]
    decreases |sts|
  {
    hide Sound, Pieces, EmitAll, DefineLabel, Fixed;
    if sts != [] {
      DoFixed(m, sts[0], k);
      RunFixed(sts[1..], Do(m, sts[0]), k);
    }
  }

  /** The slot at which statement k begins. */
  function PlaceOf(sts: seq<Statement>, m: Object, k: nat): nat
    requires LegalRun(sts, m) && k < |sts|
  {
    ObjectAt(sts, m, k).next
  }

  /** A register instruction or shift stands in the finished text as it was written, whatever is
      assembled and defined after it. */
  lemma {:induction false} RegisterStands(sts: seq<Statement>, m: Object, k: nat)
    requires LegalRun(sts, m) && k < |sts| && IsFixed(sts[k])
    ensures var n := PlaceOf(sts, m, k);
            n < |Assembled(sts, m).text| && Assembled(sts, m).text[n] == Slot.Some(Encoded(FixedInst(sts[k])))
    decreases |sts|
  {
    hide Sound, Pieces, Encoded, FixedInst, DefineLabel, IsFixed;
    var r := Do(m, sts[0]);
    if k == 0 {
      RegisterWritten(m, sts[0], FixedInst(sts[0]));
      RunFixed(sts[1..], r, m.next);
    } else {
      RegisterStands(sts[1..], r, k - 1);
    }
  }

  lemma RegisterWritten(m: Object, st: Statement, i: Inst)
    requires Legal(st, m) && IsFixed(st) && UsesWithin(m, st) && i == FixedInst(st)
    ensures m.next < |m.text| && |Do(m, st).text| == |m.text| && Do(m, st).next == m.next + 1
    ensures Do(m, st).text[m.next] == Slot.Some(Encoded(i)) && Fixed(Do(m, st).text[m.next])
  {
    hide Sound, Encode;
    EmitAllOne(m, i);
    EmitWrites(m, i);
  }

  // ---------- Programs on the machine ----------

  /** The machine's symbol table has the addresses of the defined labels. */
  ghost predicate Knows(syms: map<string, Word>, labels: Labels) {
    forall name: string | AddressOf(name, labels) != 0 :: name in syms && syms[name] == AddressOf(name, labels)
  }

  lemma CleanLinked(t: seq<Slot>, e: Entry, labels: Labels, syms: map<string, Word>)
    requires Clean(t, e) && Defined(e.e, labels) && Knows(syms, labels)
    ensures Linked(t, e.at, e.end, syms)
  {
  }

  /** The finished program m is in the text segment, and the machine is at the statement e. */
  ghost predicate Arrived(st: State, m: Object, e: Entry) {
    At(st, e.at) && st.sys.mem.text == m.text && Knows(st.sys.syms, m.labels) && e.at < e.end < |m.text|
  }

  /** The program sts assembles to m, in which the label of its statement k, e, is defined. */
  ghost predicate Finished(n: nat, sts: seq<Statement>, k: nat, e: Entry, m: Object) {
    && LegalRun(sts, Empty(n)) && k < |sts| && EntryAt(sts, Empty(n), k) == Some(e)
    && m == Assembled(sts, Empty(n)) && Defined(e.e, m.labels)
  }

  /** Statement k of a program, loaded: its slots are linked, and fulfil it. */
  lemma StatementLoaded(n: nat, sts: seq<Statement>, k: nat, e: Entry, m: Object, st: State)
    requires Finished(n, sts, k, e, m) && Arrived(st, m, e)
    ensures Loaded(st, m.text, e.at, e.end) && Done(m.text, e, m.labels)
  {
    hide Fulfils, Waits;
    AssemblyCorrect(n, sts, k);
    assert Inv(Empty(n), []);
    RunClean(sts, Empty(n), []);
    LogHolds(sts, Empty(n), [], k);
    CleanLinked(m.text, e, m.labels, st.sys.syms);
  }

  /** Every computation on a constant or label, in any program: rt gets what the operation makes of
      the source register and the whole value, and registers other than rt and $at, and the rest of
      the machine, stay as they were. */
  lemma ProgramComputes(step: Machine, access: AccessEffect, n: nat, sts: seq<Statement>, k: nat, e: Entry, m: Object,
                        st: State) returns (w: Bank, x: Word)
    requires Faithful(step, access) && Finished(n, sts, k, e, m) && Arrived(st, m, e)
    requires IsConstOp(e.op) && e.rs != 1 && NoOverflow(e.op, RegOf(st.r, e.rs), ValueOf(e, m.labels))
    ensures Run(step, st, e.end - e.at) == Some(Isa.State(w, Moved(st.sys, e.end)))
    ensures Sets(st.r, w, e.rt, x) && Means(e.op, RegOf(st.r, e.rs), ValueOf(e, m.labels), x)
  {
    hide Fulfils, IsConstOp, NoOverflow, Means, Finished, Linked, Faithful, Waits;
    StatementLoaded(n, sts, k, e, m, st);
    w, x := ConstantRuns(step, access, st, m.text, e.at, e.end, e.op, e.rt, e.rs, ValueOf(e, m.labels));
  }

  /** A register computation or shift writes what its operation makes of the registers that it names. */
  lemma ProgramRegisters(step: Machine, access: AccessEffect, n: nat, sts: seq<Statement>, k: nat, m: Object, st: State)
      returns (b: Word, x: Word)
    requires Faithful(step, access) && LegalRun(sts, Empty(n)) && k < |sts| && IsFixed(sts[k])
    requires m == Assembled(sts, Empty(n)) && At(st, PlaceOf(sts, Empty(n), k)) && st.sys.mem.text == m.text
    requires Plain(FixedInst(sts[k]), st.r)
    ensures var i := FixedInst(sts[k]);
            && step(st) == Isa.Next(Isa.State(st.r[0 := 0][if TakesImmediate(i.op) then i.rt else i.rd := x],
                                              Moved(st.sys, PlaceOf(sts, Empty(n), k) + 1)))
            && (if TakesImmediate(i.op) then StandsFor(i.op, i.imm, b) else b == RegOf(st.r, i.rt))
            && Means(i.op, First(i, RegOf(st.r, i.rs)), b, x)
  {
    hide LegalRun, Assembled, FixedInst, PlaceOf, Means, StandsFor, TakesImmediate, First, Plain, Computed;
    var i := FixedInst(sts[k]);
    b, x := PlainMeans(i, st.r, st.sys);
    RegisterStands(sts, Empty(n), k);
    FixedPlain(sts[k], st.r);
    assert Computing(st, PlaceOf(sts, Empty(n), k), Encoded(i));
  }

  /** What the machine computes has the meaning of its operation. */
  lemma PlainMeans(i: Inst, r: Bank, s: Sys) returns (b: Word, x: Word)
    requires Plain(i, r)
    ensures Computed(r, i) == r[0 := 0][if TakesImmediate(i.op) then i.rt else i.rd := x]
    ensures if TakesImmediate(i.op) then StandsFor(i.op, i.imm, b) else b == RegOf(r, i.rt)
    ensures Means(i.op, First(i, RegOf(r, i.rs)), b, x)
  {
    hide Means, StandsFor, First, Plain, Outcome, Dest, TakesImmediate, Isa.Exec, Overflows;
    PlainKinds(i, r);
    b, x := ExecComputes(i, RegOf(r, i.rs), RegOf(r, i.rt), s);
    OutcomeExecutes(i, r, s);
  }

  lemma PlainKinds(i: Inst, r: Bank)
    requires Plain(i, r)
    ensures (ByNumbers(i.op) || ByDigits(i.op)) && !Overflows(i, RegOf(r, i.rs), RegOf(r, i.rt))
  {
  }

  lemma OutcomeExecutes(i: Inst, r: Bank, s: Sys)
    requires Plain(i, r)
    ensures Isa.Exec(i, RegOf(r, i.rs), RegOf(r, i.rt), s) == Isa.Write(Dest(i), Outcome(i, r), s)
  {
    hide Isa.Compute, Isa.Shifted, Isa.ExactSum, Wrap, Isa.Operand;
  }

  lemma FixedPlain(st: Statement, r: Bank)
    requires IsFixed(st) && Plain(FixedInst(st), r)
    ensures FixedInst(st).expr.None? && Encoded(FixedInst(st)).expr.None?
    ensures Plain(Encoded(FixedInst(st)), r) && Computed(r, Encoded(FixedInst(st))) == Computed(r, FixedInst(st))
  {
    EncodedPlain(FixedInst(st), r);
  }

  /** Computing does not look at the encoding. */
  lemma EncodedPlain(i: Inst, r: Bank)
    requires Plain(i, r)
    ensures Plain(Encoded(i), r) && Computed(r, Encoded(i)) == Computed(r, i)
  {
    hide Encode, Wrap, Isa.ShiftLeft, Isa.ShiftRight, Isa.ShiftArith, AndW, OrW, XorW;
  }

  /** What `lui rt, v` leaves in rt. An operand that is known when the statement is met, and fits the
      field, goes to the upper half; any other is the value to load. */
  function UpperValue(known: bool, v: Word): Word { if known && v < 0x1_0000 then v * 0x1_0000 else v }

  /** Every LUI, in any program. */
  lemma ProgramUppers(step: Machine, access: AccessEffect, n: nat, sts: seq<Statement>, k: nat, e: Entry, m: Object,
                      st: State) returns (w: Bank)
    requires Faithful(step, access) && Finished(n, sts, k, e, m) && Arrived(st, m, e) && e.op.LUI?
    ensures Run(step, st, e.end - e.at) == Some(Isa.State(w, Moved(st.sys, e.end)))
    ensures Sets(st.r, w, e.rt, UpperValue(Defined(e.e, ObjectAt(sts, Empty(n), k).labels), Total(e.e, m.labels)))
  {
    hide Fulfils, Takes, LoadsValue, Defined, Linked, Faithful, LegalRun, Assembled, EntryAt, Done, Sets;
    var v := Total(e.e, m.labels);
    StatementLoaded(n, sts, k, e, m, st);
    UpperAssembled(n, sts, k, e);
    w := UpperHalfRuns(step, access, st, m.text, e.at, e.end, e.rt, e.rs, v,
                       Defined(e.e, ObjectAt(sts, Empty(n), k).labels) && v < 0x1_0000);
  }

  /** So the order of a label and an LUI does not matter if and only if the operand is 0 or does not
      fit the field. */
  lemma UpperOrder(step: Machine, access: AccessEffect, n: nat, sts: seq<Statement>, k: nat, e: Entry, m: Object,
      st: State, n': nat, sts': seq<Statement>, k': nat, e': Entry, m': Object, st': State, v: Word)
      returns (w: Bank, w': Bank)
    requires Faithful(step, access) && e.op.LUI? && e'.op.LUI? && e.rt == e'.rt != 0
    requires Finished(n, sts, k, e, m) && Arrived(st, m, e)
    requires Finished(n', sts', k', e', m') && Arrived(st', m', e')
    requires Total(e.e, m.labels) == v == Total(e'.e, m'.labels)
    requires Defined(e.e, ObjectAt(sts, Empty(n), k).labels) && !Defined(e'.e, ObjectAt(sts', Empty(n'), k').labels)
    ensures Run(step, st, e.end - e.at) == Some(Isa.State(w, Moved(st.sys, e.end)))
    ensures Run(step, st', e'.end - e'.at) == Some(Isa.State(w', Moved(st'.sys, e'.end)))
    ensures w[e.rt] == w'[e.rt] <==> v == 0 || v >= 0x1_0000
  {
    hide Arrived, Defined, Faithful, LegalRun, Assembled, EntryAt, Run, Finished;
    w := ProgramUppers(step, access, n, sts, k, e, m, st);
    w' := ProgramUppers(step, access, n', sts', k', e', m', st');
  }

  // `x = 4` before `lui $8, x`, and after it.

  function Operand(): ImmExpr { ImmExpr(0, Some("x"), 0, false) }

  function LabelFirst(): seq<Statement> { [Define("x", 4), Immediate(LUI, 8, 0, Operand())] }

  function LabelLast(): seq<Statement> { [Immediate(LUI, 8, 0, Operand()), Define("x", 4)] }

  lemma TwoRun(sts: seq<Statement>, a: Statement, b: Statement, m: Object)
    requires sts == [a, b] && Legal(a, m) && UsesWithin(m, a) && Legal(b, Do(m, a)) && UsesWithin(Do(m, a), b)
    ensures LegalRun(sts, m) && Assembled(sts, m) == Do(Do(m, a), b)
    ensures ObjectAt(sts, m, 0) == m && ObjectAt(sts, m, 1) == Do(m, a)
  {
    hide Sound, Pieces, EmitAll, DefineLabel;
    assert sts[1..] == [b] && [b][1..] == [];
    var m1 := Do(m, a);
    assert LegalRun([b], m1) && ObjectAt([b], m1, 0) == m1 && Assembled([b], m1) == Assembled([], Do(m1, b));
    assert LegalRun(sts, m) && sts[0] == a;
    assert ObjectAt(sts, m, 1) == ObjectAt(sts[1..], m1, 0);
  }

  lemma LabelFirstRuns()
    ensures LegalRun(LabelFirst(), Empty(4)) && EntryAt(LabelFirst(), Empty(4), 1).Some?
    ensures Finished(4, LabelFirst(), 1, EntryAt(LabelFirst(), Empty(4), 1).value, Assembled(LabelFirst(), Empty(4)))
    ensures Defined(Operand(), ObjectAt(LabelFirst(), Empty(4), 1).labels)
    ensures Total(Operand(), Assembled(LabelFirst(), Empty(4)).labels) == 4
  {
    hide LegalRun, Assembled, ObjectAt, EmitAll, Sound, Pieces, DefineLabel;
    var st := Immediate(LUI, 8, 0, Operand());
    var m1 := XDefined(st);
    TwoRun(LabelFirst(), Define("x", 4), st, Empty(4));
    DoAddress(m1, st, "x");
  }

  lemma XDefined(st: Statement) returns (m1: Object)
    requires st == Immediate(LUI, 8, 0, Operand())
    ensures Legal(Define("x", 4), Empty(4)) && UsesWithin(Empty(4), Define("x", 4)) && m1 == Do(Empty(4), Define("x", 4))
    ensures AddressOf("x", m1.labels) == 4 && Legal(st, m1) && UsesWithin(m1, st)
  {
    hide EmitAll, WidePieces;
    m1 := Do(Empty(4), Define("x", 4));
    SinglePieces(LUI, 8, 0, st.e, m1.labels);
  }

  lemma LabelLastRuns()
    ensures LegalRun(LabelLast(), Empty(4)) && EntryAt(LabelLast(), Empty(4), 0).Some?
    ensures Finished(4, LabelLast(), 0, EntryAt(LabelLast(), Empty(4), 0).value, Assembled(LabelLast(), Empty(4)))
    ensures !Defined(Operand(), ObjectAt(LabelLast(), Empty(4), 0).labels)
    ensures Total(Operand(), Assembled(LabelLast(), Empty(4)).labels) == 4
  {
    hide LegalRun, Assembled, ObjectAt, EmitAll, ResolveAll;
    var m, st := Empty(4), Immediate(LUI, 8, 0, Operand());
    var m1 := LuiWaits(m, st);
    TwoRun(LabelLast(), st, Define("x", 4), m);
    assert AddressOf("x", Do(m1, Define("x", 4)).labels) == 4;
  }

  lemma LuiWaits(m: Object, st: Statement) returns (m1: Object)
    requires m == Empty(4) && st == Immediate(LUI, 8, 0, Operand())
    ensures Legal(st, m) && UsesWithin(m, st) && m1 == Do(m, st)
    ensures UsesWithin(m1, Define("x", 4)) && AddressOf("x", m1.labels) == 0 && m1.next <= |m1.text|
  {
    hide EmitAll, ResolveAll;
    assert Inv(m, []);
    NoGp(LUI, 0, st.e, m.labels);
    PiecesWide(LUI, 8, 0, st.e, m.labels);
    m1 := Do(m, st);
    DoPreserves(m, [], st);
    EmitAllKeeps(m, CodeOf(st, m));
    DefinePreserves(m1, Logged([], EntryOf(st, m)), "x", 4);
  }

  /** The first loads 0x40000, the second 4. */
  lemma UpperInput(step: Machine, access: AccessEffect, e: Entry, m: Object, st: State, e': Entry, m': Object, st': State)
      returns (w: Bank, w': Bank)
    requires Faithful(step, access)
    requires Finished(4, LabelFirst(), 1, e, m) && Arrived(st, m, e)
    requires Finished(4, LabelLast(), 0, e', m') && Arrived(st', m', e')
    ensures Run(step, st, e.end - e.at) == Some(Isa.State(w, Moved(st.sys, e.end))) && w[8] == 0x4_0000
    ensures Run(step, st', e'.end - e'.at) == Some(Isa.State(w', Moved(st'.sys, e'.end))) && w'[8] == 4
  {
    hide Faithful, Arrived, LegalRun, Assembled, Run, ObjectAt, Defined, Total;
    LabelFirstRuns();
    LabelLastRuns();
    w := ProgramUppers(step, access, 4, LabelFirst(), 1, e, m, st);
    w' := ProgramUppers(step, access, 4, LabelLast(), 0, e', m', st');
  }

  lemma AccessFulfils(t: seq<Slot>, e: Entry, v: Word)
    requires e.at <= e.end <= |t| && Fulfils(t, e.at, e.end, e.op, e.rt, e.rs, v)
    requires Isa.IsLoad(e.op) || Isa.IsStore(e.op)
    ensures Accesses(t, e.at, e.end, e.op, e.rt, e.rs, v)
  {
    hide Accesses, Computes;
    AccessExtends(e.op);
  }

  /** Every load and store reaches R[rs] + label + offset. */
  lemma ProgramAccesses(step: Machine, access: AccessEffect, n: nat, sts: seq<Statement>, k: nat, e: Entry, m: Object,
                        st: State) returns (u: State)
    requires Faithful(step, access) && Finished(n, sts, k, e, m) && Arrived(st, m, e)
    requires (Isa.IsLoad(e.op) || Isa.IsStore(e.op)) && e.rs != 1
    ensures Run(step, st, e.end - e.at - 1) == Some(u) && u.sys == Moved(st.sys, e.end - 1)
    ensures forall r: Reg | r != 1 :: RegOf(u.r, r) == RegOf(st.r, r)
    ensures step(u) == access(u, e.op, Wrap(RegOf(st.r, e.rs) + ValueOf(e, m.labels)), e.rt)
  {
    hide Fulfils, Accesses, Isa.IsLoad, Isa.IsStore, Finished, Linked, Faithful;
    StatementLoaded(n, sts, k, e, m, st);
    AccessFulfils(m.text, e, ValueOf(e, m.labels));
    u := AccessRuns(step, access, st, m.text, e.at, e.end, e.op, e.rt, e.rs, ValueOf(e, m.labels));
  }

  /** Where a branch to an undisplaced label goes. */
  lemma BranchValue(pc: Word, addr: Word)
    ensures Wrap(pc + Wrap(Signed(Wrap(0x1_0000_0000 - pc)) + addr)) == addr
  {
    NegatedPc(pc, addr);
    WrapParts(addr - pc);
    SameWrap(pc + Wrap(addr - pc), addr, -((addr - pc) / 0x1_0000_0000));
  }

  /** Every taken branch to a label, before or after it, lands on the label, if it is a whole number
      of words away and within 32 kilobytes; a branch not taken goes on. */
  lemma ProgramBranches(step: Machine, access: AccessEffect, n: nat, sts: seq<Statement>, k: nat, e: Entry, m: Object,
                        st: State)
    requires Faithful(step, access) && Finished(n, sts, k, e, m) && Arrived(st, m, e)
    requires IsBranch(e.op) && e.e.pcRelative && e.e.symbol.Some?
    requires ValueOf(e, m.labels) % 4 == 0 && -0x8000 <= Signed(ValueOf(e, m.labels)) < 0x8000
    ensures m.text[e.at].Some? && var i := m.text[e.at].value;
            i.op == e.op && i.rs == e.rs && i.rt == e.rt && step(st) == Isa.Next(Branched(st, i, ValueOf(e, m.labels)))
    ensures Wrap(st.sys.pc + ValueOf(e, m.labels)) == AddressOf(e.e.symbol.value, m.labels)
  {
    hide Fulfils, IsBranch, Linked, Faithful, Branched, LegalRun, Assembled, EntryAt;
    StatementLoaded(n, sts, k, e, m, st);
    BranchRuns(step, access, st, m.text, e.at, e.end, e.op, e.rt, e.rs, ValueOf(e, m.labels));
    BranchValue(st.sys.pc, AddressOf(e.e.symbol.value, m.labels));
  }

  /** Every jump to an aligned label in its own region lands on it. */
  lemma ProgramJumps(step: Machine, access: AccessEffect, n: nat, sts: seq<Statement>, k: nat, e: Entry, m: Object,
      st: State)
    requires Faithful(step, access) && Finished(n, sts, k, e, m) && Arrived(st, m, e)
    requires IsJump(e.op) && e.rt == 0 && e.rs == 0
    requires var v := ValueOf(e, m.labels); v % 4 == 0 && v / 0x1000_0000 == st.sys.pc / 0x1000_0000
    ensures step(st) == Isa.Next(Jumped(st, e.op, ValueOf(e, m.labels)))
  {
    hide Fulfils, IsJump, Linked, Faithful, Finished;
    StatementLoaded(n, sts, k, e, m, st);
    JumpRuns(step, access, st, m.text, e.at, e.end, e.op, ValueOf(e, m.labels));
  }
}
