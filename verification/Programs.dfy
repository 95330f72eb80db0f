/** Whole assemblies: any sequence of statements and label definitions.  Every statement ends up
    doing what it asks for with the final address of its label, whether the label is defined
    before it, after it, or long after it. */
module Programs {
  import opened Word
  import opened Instruction
  import opened Codec
  import opened Linker
  import opened Expansion
  import opened Statements
  import opened ForwardRefs
  import opened Pending

  datatype Statement =
    | Immediate(op: Op, rt: Reg, rs: Reg, e: ImmExpr)
    | Jump(op: Op, e: ImmExpr)
    | Register(op: Op, rd: Reg, rs: Reg, rt: Reg)
    | Shift(op: Op, rd: Reg, rt: Reg, shamt: int)
    | Define(name: string, addr: Word)

  /** A statement without an expression is one instruction. */
  predicate IsFixed(st: Statement) { st.Register? || st.Shift? }

  function FixedInst(st: Statement): Inst
    requires IsFixed(st)
  {
    match st
    case Register(op, rd, rs, rt) => MakeR(op, rd, rs, rt)
    case Shift(op, rd, rt, shamt) => MakeShift(op, rd, rt, shamt)
  }

  function Absolute(e: ImmExpr): ImmExpr { e.(offset := 0, pcRelative := false) }

  function CodeOf(st: Statement, m: Object): seq<Inst> {
    match st
    case Immediate(op, rt, rs, e) => Pieces(op, rt, rs, e, m.labels)
    case Jump(op, e) => [MakeI(op, 0, 0, Absolute(e))]
    case Register(_, _, _, _) => [FixedInst(st)]
    case Shift(_, _, _, _) => [FixedInst(st)]
    case Define(_, _) => []
  }

  /** The label gets its address, and everything that waits for it is resolved; a second definition
      has no effect. */
  function DefineLabel(m: Object, name: string, addr: Word): (r: Object)
    requires forall k | 0 <= k < |LabelOf(name, m.labels).uses| :: LabelOf(name, m.labels).uses[k] < |m.text|
  {
    if AddressOf(name, m.labels) != 0 then m
    else
      var l := LabelOf(name, m.labels).(addr := addr);
      Object(ResolveAll(m.text, l.uses, m.labels[name := l]), m.next, m.labels[name := l.(uses := [])])
  }

  predicate UsesWithin(m: Object, st: Statement) {
    st.Define? ==>
      forall k | 0 <= k < |LabelOf(st.name, m.labels).uses| :: LabelOf(st.name, m.labels).uses[k] < |m.text|
  }

  /** What the assembler makes of a statement. */
  function Do(m: Object, st: Statement): Object
    requires m.next + |CodeOf(st, m)| <= |m.text|
    requires UsesWithin(m, st)
  {
    if st.Define? then DefineLabel(m, st.name, st.addr) else EmitAll(m, CodeOf(st, m))
  }

  // ---------- The statements so far ----------

  /** The latest first: their slots do not overlap, and lie below `bound`. */
  predicate Stacked(log: seq<Entry>, bound: nat) {
    log == [] || (log[0].at <= log[0].end <= bound && Stacked(log[1..], log[0].at))
  }

  function Uses(e: Entry, name: string): seq<nat> {
    if e.e.symbol == Some(name) then UsesOf(e.op, e.rs, e.at) else []
  }

  /** All slots that wait for a symbol, in the order of its list of uses. */
  function AllUses(log: seq<Entry>, name: string): seq<nat> {
    if log == [] then [] else Uses(log[0], name) + AllUses(log[1..], name)
  }

  ghost predicate AllOk(log: seq<Entry>, t: seq<Slot>, labels: Labels) {
    forall e | e in log :: EntryOk(e, t, labels)
  }

  ghost predicate UsesOk(m: Object, log: seq<Entry>) {
    forall name: string ::
      LabelOf(name, m.labels).uses == if AddressOf(name, m.labels) == 0 then AllUses(log, name) else []
  }

  /** What every statement keeps. */
  ghost predicate Inv(m: Object, log: seq<Entry>) {
    && m.next <= |m.text| && Stacked(log, m.next)
    && AllOk(log, m.text, m.labels)
    && UsesOk(m, log)
    && forall name: string :: !LabelOf(name, m.labels).gp
  }

  lemma {:induction false} StackedBelow(log: seq<Entry>, bound: nat, e: Entry)
    requires Stacked(log, bound) && e in log
    ensures e.at <= e.end <= bound
    decreases |log|
  {
    if e != log[0] { StackedBelow(log[1..], log[0].at, e); }
  }

  /** The statements that a program may contain next: what the grammar asks of their operands, and
      room for them. */
  predicate Legal(st: Statement, m: Object) {
    && m.next + |CodeOf(st, m)| <= |m.text|
    && match st
       case Immediate(op, rt, rs, e) => Sound(op, rs, e, m.next, m.labels)
       case Jump(op, e) => IsJump(op) && e.bits == 0
       case Register(_, _, _, _) => true
       case Shift(_, _, _, _) => true
       case Define(_, addr) => addr != 0
  }

  /** What the log says of a statement with an expression. */
  function EntryOf(st: Statement, m: Object): Option<Entry> {
    match st
    case Immediate(op, rt, rs, e) => Some(Entry(m.next, m.next + |CodeOf(st, m)|, op, rt, rs, e))
    case Jump(op, e) => Some(Entry(m.next, m.next + 1, op, 0, 0, Absolute(e)))
    case Register(_, _, _, _) => None
    case Shift(_, _, _, _) => None
    case Define(_, _) => None
  }

  function Logged(log: seq<Entry>, e: Option<Entry>): seq<Entry> { if e.Some? then [e.value] + log else log }

  // ---------- Statements that emit ----------

  lemma AllUsesOf(e: Entry, log: seq<Entry>, name: string)
    ensures AllUses([e] + log, name) == Uses(e, name) + AllUses(log, name)
  {
    assert ([e] + log)[1..] == log;
  }

  lemma StackedOn(e: Entry, log: seq<Entry>, bound: nat)
    requires Stacked(log, e.at) && e.at <= e.end <= bound
    ensures Stacked([e] + log, bound)
  {
    assert ([e] + log)[1..] == log;
  }

  lemma {:induction false} StackedHigher(log: seq<Entry>, low: nat, high: nat)
    requires Stacked(log, low) && low <= high
    ensures Stacked(log, high)
  {
  }

  lemma EntriesStay(m: Object, r: Object, log: seq<Entry>)
    requires Keeps(m, r) && Inv(m, log)
    ensures AllOk(log, r.text, r.labels)
  {
    forall e | e in log ensures EntryOk(e, r.text, r.labels) {
      StackedBelow(log, m.next, e);
      EntryStays(m, r, e);
    }
  }

  lemma AllOkOn(e: Entry, log: seq<Entry>, t: seq<Slot>, labels: Labels)
    requires EntryOk(e, t, labels) && AllOk(log, t, labels)
    ensures AllOk([e] + log, t, labels)
  {
  }

  /** The new entry on top of what emission keeps. */
  lemma Push(m: Object, log: seq<Entry>, r: Object, e: Entry)
    requires Inv(m, log) && Keeps(m, r) && e.at == m.next && e.end == r.next && EntryOk(e, r.text, r.labels)
    requires UsesOk(r, [e] + log)
    ensures Inv(r, [e] + log)
  {
    EntriesStay(m, r, log);
    AllOkOn(e, log, r.text, r.labels);
    StackedOn(e, log, r.next);
  }

  lemma KnownPreserves(m: Object, log: seq<Entry>, code: seq<Inst>, r: Object, e: Entry)
    requires Inv(m, log) && m.next + |code| <= |m.text| && AllKnown(code, m.labels) && r == EmitAll(m, code)
    requires e.at == m.next && e.end == r.next && Defined(e.e, m.labels)
    requires Done(r.text, e, m.labels)
    ensures Inv(r, [e] + log)
  {
    KnownEmit(m, code);
    EmitAllKeeps(m, code);
    forall name: string
      ensures LabelOf(name, r.labels).uses == if AddressOf(name, r.labels) == 0 then AllUses([e] + log, name) else []
    {
      AllUsesOf(e, log, name);
    }
    Push(m, log, r, e);
  }

  lemma PendingPreserves(m: Object, log: seq<Entry>, code: seq<Inst>, r: Object, e: Entry)
    requires Inv(m, log) && m.next + |code| <= |m.text| && r == EmitAll(m, code)
    requires e.at == m.next && e.end == r.next && !Defined(e.e, m.labels)
    requires MayWait(e.op, e.rs, e.e) && code == OpenCode(e.op, e.rt, e.rs, e.e)
    ensures Inv(r, [e] + log)
  {
    var sym := e.e.symbol.value;
    EmitAllKeeps(m, code);
    SameDefined(e.e, m.labels, r.labels);
    OpenCodeOf(e.op, e.rt, e.rs, e.e);
    PendingEmit(m, code, sym);
    OpenCodeUses(e.op, e.rt, e.rs, e.e, m.next, code);
    NotedUses(m, log, r, e);
    WaitsWritten(m.text, r.text, code, e);
    Push(m, log, r, e);
  }

  lemma WaitsWritten(t: seq<Slot>, u: seq<Slot>, code: seq<Inst>, e: Entry)
    requires Written(t, u, e.at, code) && e.end == e.at + |code|
    requires MayWait(e.op, e.rs, e.e) && code == OpenCode(e.op, e.rt, e.rs, e.e)
    ensures Waits(u, e)
  {
  }

  lemma NotedUses(m: Object, log: seq<Entry>, r: Object, e: Entry)
    requires UsesOk(m, log) && e.e.symbol.Some? && AddressOf(e.e.symbol.value, m.labels) == 0
    requires Noted(m.labels, r.labels, e.e.symbol.value, UsesOf(e.op, e.rs, e.at))
    ensures UsesOk(r, [e] + log)
  {
    forall name: string
      ensures LabelOf(name, r.labels).uses == if AddressOf(name, r.labels) == 0 then AllUses([e] + log, name) else []
    {
      NotedUsesOf(m, log, r, e, name);
    }
  }

  lemma NotedUsesOf(m: Object, log: seq<Entry>, r: Object, e: Entry, name: string)
    requires UsesOk(m, log) && e.e.symbol.Some? && AddressOf(e.e.symbol.value, m.labels) == 0
    requires Noted(m.labels, r.labels, e.e.symbol.value, UsesOf(e.op, e.rs, e.at))
    ensures LabelOf(name, r.labels).uses == if AddressOf(name, r.labels) == 0 then AllUses([e] + log, name) else []
  {
    AllUsesOf(e, log, name);
  }

  lemma FixedPreserves(m: Object, log: seq<Entry>, i: Inst, r: Object)
    requires Inv(m, log) && m.next < |m.text| && i.expr.None? && r == EmitAll(m, [i])
    ensures Inv(r, log)
  {
    KnownEmit(m, [i]);
    EmitAllKeeps(m, [i]);
    EntriesStay(m, r, log);
    StackedHigher(log, m.next, r.next);
  }

  lemma ImmediatePreserves(m: Object, log: seq<Entry>, e: Entry, code: seq<Inst>, r: Object)
    requires Inv(m, log) && m.next + |code| <= |m.text| && r == EmitAll(m, code)
    requires Sound(e.op, e.rs, e.e, m.next, m.labels) && code == Pieces(e.op, e.rt, e.rs, e.e, m.labels)
    requires e.at == m.next && e.end == r.next
    ensures Inv(r, [e] + log)
  {
    NoGp(e.op, e.rs, e.e, m.labels);
    if Defined(e.e, m.labels) {
      PiecesKnown(e.op, e.rt, e.rs, e.e, m.labels);
      ImmediateKnown(m, e, code, r, ValueOf(e, m.labels));
      KnownPreserves(m, log, code, r, e);
    } else {
      ImmediateWaits(m, e, code);
      PendingPreserves(m, log, code, r, e);
    }
  }

  lemma ImmediateKnown(m: Object, e: Entry, code: seq<Inst>, r: Object, v: Word)
    requires m.next + |code| <= |m.text| && r == EmitAll(m, code) && e.at == m.next && e.end == m.next + |code|
    requires Sound(e.op, e.rs, e.e, m.next, m.labels) && code == Pieces(e.op, e.rt, e.rs, e.e, m.labels)
    requires Defined(e.e, m.labels) && !ReachedByGp(e.op, e.rs, e.e, m.labels) && v == ValueOf(e, m.labels)
    ensures Fulfils(r.text, e.at, e.end, e.op, e.rt, e.rs, v)
  {
    hide Fulfils, Sound, Pieces, ReachedByGp, EmitAll;
    KnownFulfilled(m, e.op, e.rt, e.rs, e.e, code, v);
  }

  lemma ImmediateWaits(m: Object, e: Entry, code: seq<Inst>)
    requires Sound(e.op, e.rs, e.e, m.next, m.labels) && code == Pieces(e.op, e.rt, e.rs, e.e, m.labels)
    requires !Defined(e.e, m.labels) && !ReachedByGp(e.op, e.rs, e.e, m.labels)
    ensures MayWait(e.op, e.rs, e.e) && code == OpenCode(e.op, e.rt, e.rs, e.e)
  {
    PiecesWide(e.op, e.rt, e.rs, e.e, m.labels);
  }

  lemma NoGp(op: Op, rs: Reg, e: ImmExpr, labels: Labels)
    requires forall name: string :: !LabelOf(name, labels).gp
    ensures !ReachedByGp(op, rs, e, labels)
  {
  }

  lemma JumpSettled(op: Op, e: ImmExpr, n: nat, labels: Labels, v: Word)
    requires IsJump(op) && e.bits == 0 && !e.pcRelative && Defined(e, labels) && v == Total(e, labels)
    ensures var i := Settled(MakeI(op, 0, 0, e), n, labels);
            i.op == op && i.rt == 0 && i.rs == 0 && i.target == v % 0x1000_0000 / 4
  {
    WrapSigned(v);
  }

  lemma KnownJump(m: Object, op: Op, e: ImmExpr, code: seq<Inst>, v: Word)
    requires IsJump(op) && e.bits == 0 && !e.pcRelative && Defined(e, m.labels) && v == Total(e, m.labels)
    requires m.next < |m.text| && code == [MakeI(op, 0, 0, e)]
    ensures Fulfils(EmitAll(m, code).text, m.next, m.next + 1, op, 0, 0, v)
  {
    EmitAllWrites(m, code, 0);
    JumpSettled(op, e, m.next, m.labels, v);
    JumpFulfils(EmitAll(m, code).text, m.next, Settled(MakeI(op, 0, 0, e), m.next, m.labels), op, v);
  }

  lemma JumpFulfils(t: seq<Slot>, a: nat, i: Inst, op: Op, v: Word)
    requires a < |t| && Alike(t[a], Slot.Some(i)) && IsJump(op)
    requires i.op == op && i.rt == 0 && i.rs == 0 && i.target == v % 0x1000_0000 / 4
    ensures Fulfils(t, a, a + 1, op, 0, 0, v)
  {
  }

  lemma JumpPreserves(m: Object, log: seq<Entry>, op: Op, x: ImmExpr, code: seq<Inst>, r: Object)
    requires Inv(m, log) && m.next < |m.text| && IsJump(op) && x.bits == 0 && !x.pcRelative
    requires code == [MakeI(op, 0, 0, x)] && r == EmitAll(m, code)
    ensures Inv(r, [Entry(m.next, r.next, op, 0, 0, x)] + log)
  {
    var e := Entry(m.next, r.next, op, 0, 0, x);
    if Defined(x, m.labels) {
      KnownJump(m, op, x, code, ValueOf(e, m.labels));
      KnownPreserves(m, log, code, r, e);
    } else {
      PendingPreserves(m, log, code, r, e);
    }
  }

  // ---------- Definitions ----------

  /** The labels agree in all but the address of one that was undefined. */
  ghost predicate Defines(before: Labels, after: Labels, name: string) {
    && AddressOf(name, before) == 0 && AddressOf(name, after) != 0
    && forall n: string :: n != name ==> AddressOf(n, after) == AddressOf(n, before)
  }

  lemma OtherTotal(x: ImmExpr, before: Labels, after: Labels, name: string)
    requires Defines(before, after, name) && x.symbol != Some(name)
    ensures Defined(x, after) == Defined(x, before) && Total(x, after) == Total(x, before)
  {
  }

  lemma SameEntry(e: Entry, t: seq<Slot>, before: Labels, after: Labels)
    requires Defined(e.e, after) == Defined(e.e, before) && ValueOf(e, after) == ValueOf(e, before)
    requires EntryOk(e, t, before)
    ensures EntryOk(e, t, after)
  {
  }

  lemma OtherEntry(e: Entry, t: seq<Slot>, before: Labels, after: Labels, name: string)
    requires Defines(before, after, name) && e.e.symbol != Some(name) && EntryOk(e, t, before)
    ensures EntryOk(e, t, after)
  {
    OtherTotal(e.e, before, after, name);
    OtherTotal(Placed(e.e, e.at), before, after, name);
    SameEntry(e, t, before, after);
  }

  /** Whatever happens outside its slots leaves a statement as it is. */
  lemma EntryOutside(e: Entry, t: seq<Slot>, u: seq<Slot>, labels: Labels)
    requires EntryOk(e, t, labels) && |u| == |t| && forall k | e.at <= k < e.end && k < |t| :: u[k] == t[k]
    ensures EntryOk(e, u, labels)
  {
    if Defined(e.e, labels) {
      assert forall k | e.at <= k < e.end :: Alike(t[k], u[k]);
      FulfilsStays(t, u, e.at, e.end, e.op, e.rt, e.rs, ValueOf(e, labels));
    } else {
      WaitsOutside(e, t, u);
    }
  }

  lemma WaitsOutside(e: Entry, t: seq<Slot>, u: seq<Slot>)
    requires Waits(t, e) && |u| == |t| && forall k | e.at <= k < e.end :: u[k] == t[k]
    ensures Waits(u, e)
  {
  }

  /** The effect of a definition on the uses of one statement. */
  lemma EntryDefined(e: Entry, t: seq<Slot>, before: Labels, after: Labels, name: string)
    requires Defines(before, after, name) && EntryOk(e, t, before) && e.at <= e.end
    ensures forall k | 0 <= k < |Uses(e, name)| :: Uses(e, name)[k] < |t|
    ensures var u := ResolveAll(t, Uses(e, name), after); Outside(t, u, e.at, e.end) && EntryOk(e, u, after)
  {
    if e.e.symbol == Some(name) {
      EntryResolves(t, e, after);
    } else {
      OtherEntry(e, t, before, after, name);
    }
  }

  lemma RestOutside(log: seq<Entry>, bound: nat, t: seq<Slot>, u: seq<Slot>, high: nat, labels: Labels)
    requires Stacked(log, bound) && AllOk(log, t, labels) && Outside(t, u, bound, high)
    ensures AllOk(log, u, labels)
  {
    forall e | e in log ensures EntryOk(e, u, labels) {
      StackedBelow(log, bound, e);
      EntryOutside(e, t, u, labels);
    }
  }

  ghost predicate Settles(log: seq<Entry>, bound: nat, t: seq<Slot>, uses: seq<nat>, after: Labels) {
    && (forall k | 0 <= k < |uses| :: uses[k] < |t|)
    && var u := ResolveAll(t, uses, after); Outside(t, u, 0, bound) && AllOk(log, u, after)
  }

  /** Resolving all uses of a label, the latest first, completes every statement that waits for it
      and disturbs no other. */
  lemma {:induction false} LogDefined(log: seq<Entry>, bound: nat, t: seq<Slot>, before: Labels, after: Labels,
      name: string)
    requires Defines(before, after, name) && Stacked(log, bound) && AllOk(log, t, before)
    ensures Settles(log, bound, t, AllUses(log, name), after)
    decreases |log|
  {
    if log != [] {
      var e, rest := log[0], log[1..];
      EntryDefined(e, t, before, after, name);
      var t1 := ResolveAll(t, Uses(e, name), after);
      RestOk(log, t, before);
      RestOutside(rest, e.at, t, t1, e.end, before);
      LogDefined(rest, e.at, t1, before, after, name);
      ThenRest(log, bound, t, t1, name, after);
    }
  }

  lemma RestOk(log: seq<Entry>, t: seq<Slot>, labels: Labels)
    requires log != [] && AllOk(log, t, labels)
    ensures EntryOk(log[0], t, labels) && AllOk(log[1..], t, labels)
  {
  }

  lemma ThenRest(log: seq<Entry>, bound: nat, t: seq<Slot>, t1: seq<Slot>, name: string, after: Labels)
    requires log != [] && Stacked(log, bound)
    requires forall k | 0 <= k < |Uses(log[0], name)| :: Uses(log[0], name)[k] < |t|
    requires t1 == ResolveAll(t, Uses(log[0], name), after)
    requires Outside(t, t1, log[0].at, log[0].end) && EntryOk(log[0], t1, after)
    requires Settles(log[1..], log[0].at, t1, AllUses(log[1..], name), after)
    ensures Settles(log, bound, t, AllUses(log, name), after)
  {
    var e, uses := log[0], AllUses(log[1..], name);
    var u := ResolveAll(t1, uses, after);
    ResolveAllAppends(t, Uses(e, name), uses, after);
    EntryOutside(e, t1, u, after);
    assert log == [e] + log[1..];
    AllOkOn(e, log[1..], u, after);
  }

  lemma DefinePreserves(m: Object, log: seq<Entry>, name: string, addr: Word)
    requires Inv(m, log) && addr != 0
    ensures forall k | 0 <= k < |LabelOf(name, m.labels).uses| :: LabelOf(name, m.labels).uses[k] < |m.text|
    ensures Inv(DefineLabel(m, name, addr), log)
  {
    if AddressOf(name, m.labels) == 0 {
      var l := LabelOf(name, m.labels).(addr := addr);
      var after := m.labels[name := l];
      assert Defines(m.labels, after, name);
      LogDefined(log, m.next, m.text, m.labels, after, name);
      UsesDropped(m, log, name, addr, after);
    }
  }

  lemma UsesDropped(m: Object, log: seq<Entry>, name: string, addr: Word, after: Labels)
    requires Inv(m, log) && addr != 0 && AddressOf(name, m.labels) == 0
    requires after == m.labels[name := LabelOf(name, m.labels).(addr := addr)]
    requires Settles(log, m.next, m.text, LabelOf(name, m.labels).uses, after)
    ensures Inv(DefineLabel(m, name, addr), log)
  {
    var r := DefineLabel(m, name, addr);
    AllSame(log, r.text, after, r.labels);
    OneDropped(m, log, name, r);
  }

  lemma OneDropped(m: Object, log: seq<Entry>, name: string, r: Object)
    requires UsesOk(m, log) && AddressOf(name, m.labels) == 0
    requires AddressOf(name, r.labels) != 0 && LabelOf(name, r.labels).uses == []
    requires forall n: string :: n != name ==> LabelOf(n, r.labels) == LabelOf(n, m.labels)
    ensures UsesOk(r, log)
  {
  }

  lemma AllSame(log: seq<Entry>, t: seq<Slot>, before: Labels, after: Labels)
    requires AllOk(log, t, before) && SameAddresses(before, after)
    ensures AllOk(log, t, after)
  {
    forall e | e in log ensures EntryOk(e, t, after) {
      SameDefined(e.e, before, after);
      SameDefined(Placed(e.e, e.at), before, after);
      SameEntry(e, t, before, after);
    }
  }

  // ---------- Every assembly ----------

  lemma ImmediatePushed(m: Object, log: seq<Entry>, st: Statement, code: seq<Inst>, r: Object, e: Entry)
    requires Inv(m, log) && Legal(st, m) && st.Immediate?
    requires code == CodeOf(st, m) && r == EmitAll(m, code) && EntryOf(st, m) == Some(e)
    ensures Inv(r, [e] + log)
  {
    ImmediatePreserves(m, log, e, code, r);
  }

  lemma JumpPushed(m: Object, log: seq<Entry>, st: Statement, code: seq<Inst>, r: Object, e: Entry)
    requires Inv(m, log) && Legal(st, m) && st.Jump?
    requires code == CodeOf(st, m) && r == EmitAll(m, code) && EntryOf(st, m) == Some(e)
    ensures Inv(r, [e] + log)
  {
    JumpPreserves(m, log, st.op, Absolute(st.e), code, r);
  }

  /** Every statement keeps the invariant. */
  lemma DoPreserves(m: Object, log: seq<Entry>, st: Statement)
    requires Inv(m, log) && Legal(st, m)
    ensures UsesWithin(m, st) && Inv(Do(m, st), Logged(log, EntryOf(st, m)))
  {
    match st
    case Immediate(_, _, _, _) => ImmediatePushed(m, log, st, CodeOf(st, m), Do(m, st), EntryOf(st, m).value);
    case Jump(_, _) => JumpPushed(m, log, st, CodeOf(st, m), Do(m, st), EntryOf(st, m).value);
    case Register(_, _, _, _) => FixedPreserves(m, log, FixedInst(st), Do(m, st));
    case Shift(_, _, _, _) => FixedPreserves(m, log, FixedInst(st), Do(m, st));
    case Define(name, addr) => DefinePreserves(m, log, name, addr);
  }

  /** A program that can be assembled from m on. */
  predicate LegalRun(sts: seq<Statement>, m: Object)
    decreases |sts|
  {
    sts == [] || (Legal(sts[0], m) && UsesWithin(m, sts[0]) && LegalRun(sts[1..], Do(m, sts[0])))
  }

  function Assembled(sts: seq<Statement>, m: Object): Object
    requires LegalRun(sts, m)
    decreases |sts|
  {
    if sts == [] then m else Assembled(sts[1..], Do(m, sts[0]))
  }

  function LogOf(sts: seq<Statement>, m: Object, log: seq<Entry>): seq<Entry>
    requires LegalRun(sts, m)
    decreases |sts|
  {
    if sts == [] then log else LogOf(sts[1..], Do(m, sts[0]), Logged(log, EntryOf(sts[0], m)))
  }

  lemma {:induction false} RunPreserves(sts: seq<Statement>, m: Object, log: seq<Entry>)
    requires LegalRun(sts, m) && Inv(m, log)
    ensures Inv(Assembled(sts, m), LogOf(sts, m, log))
    decreases |sts|
  {
    if sts != [] {
      DoPreserves(m, log, sts[0]);
      RunPreserves(sts[1..], Do(m, sts[0]), Logged(log, EntryOf(sts[0], m)));
    }
  }

  lemma {:induction false} LogGrows(sts: seq<Statement>, m: Object, log: seq<Entry>, e: Entry)
    requires LegalRun(sts, m) && e in log
    ensures e in LogOf(sts, m, log)
    decreases |sts|
  {
    if sts != [] { LogGrows(sts[1..], Do(m, sts[0]), Logged(log, EntryOf(sts[0], m)), e); }
  }

  /** The program so far when statement k is met. */
  function ObjectAt(sts: seq<Statement>, m: Object, k: nat): Object
    requires LegalRun(sts, m) && k < |sts|
    decreases |sts|
  {
    if k == 0 then m else ObjectAt(sts[1..], Do(m, sts[0]), k - 1)
  }

  /** What the log says of statement k, if it has an expression. */
  function EntryAt(sts: seq<Statement>, m: Object, k: nat): Option<Entry>
    requires LegalRun(sts, m) && k < |sts|
  {
    EntryOf(sts[k], ObjectAt(sts, m, k))
  }

  lemma {:induction false} LogHolds(sts: seq<Statement>, m: Object, log: seq<Entry>, k: nat)
    requires LegalRun(sts, m) && k < |sts| && EntryAt(sts, m, k).Some?
    ensures EntryAt(sts, m, k).value in LogOf(sts, m, log)
    decreases |sts|
  {
    hide Sound, Pieces, EmitAll, DefineLabel, EntryOf;
    var log' := Logged(log, EntryOf(sts[0], m));
    if k == 0 {
      LogGrows(sts[1..], Do(m, sts[0]), log', EntryOf(sts[0], m).value);
    } else {
      LogHolds(sts[1..], Do(m, sts[0]), log', k - 1);
    }
  }

  /** An empty text segment of n words. */
  function Empty(n: nat): Object { Object(seq(n, _ => Slot.None), 0, map[]) }

  /** In every program, every statement whose label is defined somewhere does in the finished text
      what it asks for with the address that its label got, wherever in the program that is. */
  lemma AssemblyCorrect(n: nat, sts: seq<Statement>, k: nat)
    requires LegalRun(sts, Empty(n)) && k < |sts|
    ensures var m := Assembled(sts, Empty(n));
            var e := EntryAt(sts, Empty(n), k);
            e.Some? && Defined(e.value.e, m.labels) ==> Done(m.text, e.value, m.labels)
  {
    assert Inv(Empty(n), []);
    RunPreserves(sts, Empty(n), []);
    if EntryAt(sts, Empty(n), k).Some? {
      LogHolds(sts, Empty(n), [], k);
    }
  }

  // ---------- The text only fills up ----------

  lemma DoGrows(m: Object, st: Statement)
    requires Legal(st, m) && UsesWithin(m, st)
    ensures |Do(m, st).text| == |m.text| && Do(m, st).next == m.next + |CodeOf(st, m)|
  {
    hide Sound, Pieces, ResolveAll;
  }

  lemma {:induction false} RunGrows(sts: seq<Statement>, m: Object)
    requires LegalRun(sts, m)
    ensures |Assembled(sts, m).text| == |m.text| && m.next <= Assembled(sts, m).next
    decreases |sts|
  {
    hide Sound, Pieces, EmitAll, DefineLabel;
    if sts != [] {
      DoGrows(m, sts[0]);
      RunGrows(sts[1..], Do(m, sts[0]));
    }
  }

  lemma FirstGrows(sts: seq<Statement>, m: Object)
    requires LegalRun(sts, m) && sts != []
    ensures |Do(m, sts[0]).text| == |m.text| && Do(m, sts[0]).next <= Assembled(sts, m).next
  {
    hide Sound, Pieces, EmitAll, DefineLabel;
    DoGrows(m, sts[0]);
    RunGrows(sts[1..], Do(m, sts[0]));
  }

  // ---------- Labels keep their addresses ----------

  lemma DoAddress(m: Object, st: Statement, name: string)
    requires Legal(st, m) && UsesWithin(m, st) && AddressOf(name, m.labels) != 0
    ensures AddressOf(name, Do(m, st).labels) == AddressOf(name, m.labels)
  {
    hide Sound, Pieces, ResolveAll;
    if !st.Define? { EmitAllKeeps(m, CodeOf(st, m)); }
  }

  lemma {:induction false} RunAddress(sts: seq<Statement>, m: Object, name: string)
    requires LegalRun(sts, m) && AddressOf(name, m.labels) != 0
    ensures AddressOf(name, Assembled(sts, m).labels) == AddressOf(name, m.labels)
    decreases |sts|
  {
    hide Sound, Pieces, EmitAll, DefineLabel, AddressOf;
    if sts != [] {
      DoAddress(m, sts[0], name);
      RunAddress(sts[1..], Do(m, sts[0]), name);
    }
  }

  /** The address that a label has at one statement is its final one. */
  lemma {:induction false} AddressLasts(sts: seq<Statement>, m: Object, k: nat, name: string)
    requires LegalRun(sts, m) && k < |sts| && AddressOf(name, ObjectAt(sts, m, k).labels) != 0
    ensures AddressOf(name, Assembled(sts, m).labels) == AddressOf(name, ObjectAt(sts, m, k).labels)
    decreases |sts|
  {
    hide Sound, Pieces, EmitAll, DefineLabel, AddressOf;
    if k == 0 { RunAddress(sts, m, name); } else { AddressLasts(sts[1..], Do(m, sts[0]), k - 1, name); }
  }

  lemma {:induction false} ObjectLegal(sts: seq<Statement>, m: Object, k: nat)
    requires LegalRun(sts, m) && k < |sts|
    ensures Legal(sts[k], ObjectAt(sts, m, k))
    decreases |sts|
  {
    hide Sound, Pieces, EmitAll, DefineLabel;
    if k > 0 { ObjectLegal(sts[1..], Do(m, sts[0]), k - 1); }
  }

  lemma {:induction false} ObjectInv(sts: seq<Statement>, m: Object, log: seq<Entry>, k: nat) returns (log': seq<Entry>)
    requires LegalRun(sts, m) && k < |sts| && Inv(m, log)
    ensures Inv(ObjectAt(sts, m, k), log')
    decreases |sts|
  {
    hide Sound, Pieces, EmitAll, DefineLabel, Inv, EntryOf, Logged;
    if k == 0 {
      log' := log;
    } else {
      DoPreserves(m, log, sts[0]);
      log' := ObjectInv(sts[1..], Do(m, sts[0]), Logged(log, EntryOf(sts[0], m)), k - 1);
    }
  }

  // ---------- Upper halves ----------

  /** A known operand that fits takes one instruction, an unknown one takes two. */
  lemma UpperPieces(rt: Reg, rs: Reg, e: ImmExpr, n: nat, labels: Labels)
    requires Sound(LUI, rs, e, n, labels) && !ReachedByGp(LUI, rs, e, labels)
    ensures Defined(e, labels) && Total(e, labels) < 0x1_0000 ==> |Pieces(LUI, rt, rs, e, labels)| == 1
    ensures !Defined(e, labels) ==> |Pieces(LUI, rt, rs, e, labels)| == 2
  {
    if Single(LUI, e, labels) {
      SinglePieces(LUI, rt, rs, e, labels);
    } else {
      PiecesWide(LUI, rt, rs, e, labels);
    }
  }

  lemma DefinedLasts(sts: seq<Statement>, m: Object, k: nat, e: ImmExpr)
    requires LegalRun(sts, m) && k < |sts| && Defined(e, ObjectAt(sts, m, k).labels)
    ensures Total(e, Assembled(sts, m).labels) == Total(e, ObjectAt(sts, m, k).labels)
  {
    if e.symbol.Some? { AddressLasts(sts, m, k, e.symbol.value); }
  }

  /** In every program, the slots of a finished LUI load the upper half if its operand was known and
      fitted when the statement was met, and the whole value otherwise. */
  lemma UpperAssembled(n: nat, sts: seq<Statement>, k: nat, e: Entry)
    requires LegalRun(sts, Empty(n)) && k < |sts| && EntryAt(sts, Empty(n), k) == Some(e) && e.op.LUI?
    requires Defined(e.e, Assembled(sts, Empty(n)).labels)
    ensures var m := Assembled(sts, Empty(n));
            var v := Total(e.e, m.labels);
            && e.at <= e.end <= |m.text|
            && if Defined(e.e, ObjectAt(sts, Empty(n), k).labels) && v < 0x1_0000
               then e.end == e.at + 1 && Takes(m.text[e.at], LUI, e.rt, e.rs, v * 0x1_0000)
               else LoadsValue(m.text, e.at, e.end, e.rt, v)
  {
    var o := ObjectAt(sts, Empty(n), k);
    assert Inv(Empty(n), []);
    var log := ObjectInv(sts, Empty(n), [], k);
    ObjectLegal(sts, Empty(n), k);
    UpperChosen(o, log, sts[k], e);
    if Defined(e.e, o.labels) { DefinedLasts(sts, Empty(n), k, e.e); }
    AssemblyCorrect(n, sts, k);
  }

  lemma UpperChosen(o: Object, log: seq<Entry>, st: Statement, e: Entry)
    requires Inv(o, log) && Legal(st, o) && EntryOf(st, o) == Some(e) && e.op.LUI?
    ensures !e.e.pcRelative
    ensures Defined(e.e, o.labels) && Total(e.e, o.labels) < 0x1_0000 ==> e.end == e.at + 1
    ensures !Defined(e.e, o.labels) ==> e.end == e.at + 2
  {
    NoGp(e.op, e.rs, e.e, o.labels);
    UpperPieces(e.rt, e.rs, e.e, o.next, o.labels);
  }

  // ---------- The uses on record ----------

  /** The slot waits for the symbol. */
  predicate IsUse(t: seq<Slot>, u: nat, name: string) {
    u < |t| && t[u].Some? && t[u].value.expr.Some? && t[u].value.expr.value.symbol == Some(name)
  }

  predicate AreUses(t: seq<Slot>, uses: seq<nat>, name: string) {
    forall k | 0 <= k < |uses| :: IsUse(t, uses[k], name)
  }

  lemma {:induction false} WaitingAtIs(code: seq<Inst>, at: nat, u: nat)
    requires u in WaitingAt(code, at)
    ensures at <= u < at + |code| && code[u - at].expr.Some?
    decreases |code|
  {
    if u in WaitingAt(code[1..], at + 1) { WaitingAtIs(code[1..], at + 1, u); }
  }

  lemma EntryUses(e: Entry, t: seq<Slot>, name: string, u: nat)
    requires Waits(t, e) && u in Uses(e, name)
    ensures IsUse(t, u, name)
  {
    var code := OpenCode(e.op, e.rt, e.rs, e.e);
    UseInCode(e, name, u, code);
    assert t[e.at + (u - e.at)] == Slot.Some(Encoded(code[u - e.at]));
  }

  lemma UseInCode(e: Entry, name: string, u: nat, code: seq<Inst>)
    requires MayWait(e.op, e.rs, e.e) && u in Uses(e, name) && code == OpenCode(e.op, e.rt, e.rs, e.e)
    ensures e.at <= u < e.at + |code| && code[u - e.at].expr.Some?
    ensures code[u - e.at].expr.value.symbol == Some(name)
  {
    OpenCodeUses(e.op, e.rt, e.rs, e.e, e.at, code);
    OpenCodeOf(e.op, e.rt, e.rs, e.e);
    WaitingAtIs(code, e.at, u);
  }

  lemma StillWaits(e: Entry, t: seq<Slot>, labels: Labels, name: string, u: nat)
    requires EntryOk(e, t, labels) && AddressOf(name, labels) == 0 && u in Uses(e, name)
    ensures Waits(t, e)
  {
  }

  lemma {:induction false} LogUses(log: seq<Entry>, t: seq<Slot>, labels: Labels, name: string, u: nat)
    requires AllOk(log, t, labels) && AddressOf(name, labels) == 0 && u in AllUses(log, name)
    ensures IsUse(t, u, name)
    decreases |log|
  {
    var e := log[0];
    assert e in log;
    if u in Uses(e, name) {
      StillWaits(e, t, labels, name, u);
      EntryUses(e, t, name, u);
    } else {
      LogUses(log[1..], t, labels, name, u);
    }
  }

  /** Every use on record is of an instruction that still waits for that very label. */
  lemma UsesWait(m: Object, log: seq<Entry>, name: string)
    requires Inv(m, log)
    ensures AreUses(m.text, LabelOf(name, m.labels).uses, name)
  {
    var uses := LabelOf(name, m.labels).uses;
    forall k | 0 <= k < |uses| ensures IsUse(m.text, uses[k], name) {
      assert uses == AllUses(log, name);
      assert uses[k] in AllUses(log, name);
      LogUses(log, m.text, m.labels, name, uses[k]);
    }
  }
}
