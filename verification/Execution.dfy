/** Running what the assembler emits: the expansion of a statement has the effect of the statement
    on its full constant, and touches nothing but its register and $at. */
module Execution {
  import opened Word
  import opened Instruction
  import opened Codec
  import opened Linker
  import opened Expansion
  import opened Statements
  import opened Arithmetic
  import opened Control
  import DelayedLoads
  import Isa

  type State = Isa.State
  type Sys = Isa.Sys
  type Bank = Isa.Bank
  type Machine = State -> Isa.Result

  /** The outcome of a load or store at an address, to or from a register. */
  type AccessEffect = (State, Op, Word, Reg) -> Isa.Result

  /** The state after n steps, if the machine gets that far. */
  function Run(step: Machine, st: State, n: nat): Option<State>
    decreases n
  {
    if n == 0 then Some(st)
    else
      var r := step(st);
      if r.Next? then Run(step, r.st, n - 1) else None
  }

  lemma {:induction false} RunOn(step: Machine, st: State, n: nat, k: nat)
    requires Run(step, st, n).Some?
    ensures Run(step, st, n + k) == Run(step, Run(step, st, n).value, k)
    decreases n
  {
    if n > 0 { RunOn(step, step(st).st, n - 1, k); }
  }

  /** On the reference machine these are its runs. */
  lemma {:induction false} RunsAgree(st: State, n: nat)
    ensures Run(Isa.Step, st, n) ==
            if DelayedLoads.RunNow(st, n).Next? then Some(DelayedLoads.RunNow(st, n).st) else None
    decreases n
  {
    hide Isa.Step;
    if n > 0 {
      var r := Isa.Step(st);
      if r.Next? { RunsAgree(r.st, n - 1); }
    }
  }

  /** Slots a to b hold instructions whose symbols are defined. */
  predicate Linked(t: seq<Slot>, a: nat, b: nat, syms: map<string, Word>)
  {
    a <= b <= |t| && forall k | a <= k < b :: t[k].Some? && !Isa.Undefined(t[k].value, syms)
  }

  /** The machine is about to run slot n of its text. */
  predicate At(st: State, n: nat) {
    && st.sys.pc == PC(n) && !st.sys.exc && n < |st.sys.mem.text|
    && Isa.TEXT_BOT + 4 * |st.sys.mem.text| <= Isa.DATA_BOT
  }

  function Moved(s: Sys, n: nat): Sys { s.(pc := PC(n)) }

  /** $0 reads as zero. */
  function RegOf(r: Bank, reg: Reg): Word { if reg == 0 then 0 else r[reg] }

  // ---------- Straight-line code ----------

  /** Instructions that only compute: a sum among them must not overflow. */
  predicate Plain(i: Inst, r: Bank) {
    if Isa.IsSum(i.op) then -0x8000_0000 <= Isa.ExactSum(i, RegOf(r, i.rs), RegOf(r, i.rt)) < 0x8000_0000
    else Isa.IsCompute(i.op) || Isa.IsShift(i.op)
  }

  function Dest(i: Inst): Reg { if i.op.ADDI? || Isa.IsImmediate(i.op) then i.rt else i.rd }

  function Outcome(i: Inst, r: Bank): Word
    requires Plain(i, r)
  {
    if Isa.IsSum(i.op) then Wrap(Isa.ExactSum(i, RegOf(r, i.rs), RegOf(r, i.rt)))
    else if Isa.IsShift(i.op) then Isa.Shifted(i, RegOf(r, i.rs), RegOf(r, i.rt))
    else Isa.Compute(i.op, RegOf(r, i.rs), if Isa.IsImmediate(i.op) then Isa.Operand(i) else RegOf(r, i.rt))
  }

  function Computed(r: Bank, i: Inst): Bank
    requires Plain(i, r)
  {
    r[0 := 0][Dest(i) := Outcome(i, r)]
  }

  /** The instruction i at slot n of st computes. */
  predicate Computing(st: State, n: nat, i: Inst) {
    At(st, n) && st.sys.mem.text[n] == Slot.Some(i) && !Isa.Undefined(i, st.sys.syms) && Plain(i, st.r)
  }

  /** The machine runs computations as the architecture has them. */
  ghost predicate RunsPlain(step: Machine) {
    forall st: State, n: nat, i: Inst | Computing(st, n, i) ::
      step(st) == Isa.Next(Isa.State(Computed(st.r, i), Moved(st.sys, n + 1)))
  }

  lemma PcOfSlot(n: nat)
    requires n < 0x400_0000
    ensures PC(n) == Isa.TEXT_BOT + 4 * n
  {
  }

  lemma FetchAt(s: Sys, n: nat, a: Word)
    requires a == Isa.TEXT_BOT + 4 * n && n < |s.mem.text|
    ensures Isa.Fetch(s, a) == Isa.Fetched(s.mem.text[n], s)
  {
    hide Isa.Fault, Isa.InKText, Decode;
    assert (a - Isa.TEXT_BOT) / 4 == n && a % 4 == 0;
  }

  lemma IssueAt(st: State, n: nat, i: Inst)
    requires At(st, n) && st.sys.mem.text[n] == Slot.Some(i) && !Isa.Undefined(i, st.sys.syms)
    ensures Isa.Issue(st) == Isa.Ready(i, st.r[0 := 0], st.sys)
  {
    PcOfSlot(n);
    FetchAt(st.sys, n, st.sys.pc);
  }

  lemma StepPlain(st: State, n: nat, i: Inst)
    requires Computing(st, n, i)
    ensures Isa.Step(st) == Isa.Next(Isa.State(Computed(st.r, i), Moved(st.sys, n + 1)))
  {
    IssueAt(st, n, i);
    PcOfSlot(n);
    Executes(i, st.r, st.sys, n);
  }

  lemma Executes(i: Inst, r: Bank, s: Sys, n: nat)
    requires Plain(i, r) && s.pc == PC(n) && !s.exc
    ensures Isa.Execute(i, r[0 := 0], s) == Isa.Ran(Computed(r, i), None, Moved(s, n + 1))
  {
    assert Isa.Finish(s) == Moved(s, n + 1);
    if Isa.IsSum(i.op) { SumExecutes(i, r, s); }
    else if Isa.IsShift(i.op) { ShiftExecutes(i, r, s); }
    else { ComputeExecutes(i, r, s); }
  }

  lemma SumExecutes(i: Inst, r: Bank, s: Sys)
    requires Plain(i, r) && Isa.IsSum(i.op)
    ensures Isa.Execute(i, r[0 := 0], s) == Isa.Ran(Computed(r, i), None, Isa.Finish(s))
  {
  }

  lemma ShiftExecutes(i: Inst, r: Bank, s: Sys)
    requires Plain(i, r) && Isa.IsShift(i.op)
    ensures Isa.Execute(i, r[0 := 0], s) == Isa.Ran(Computed(r, i), None, Isa.Finish(s))
  {
    hide Isa.Shifted, Isa.Finish;
  }

  lemma ComputeExecutes(i: Inst, r: Bank, s: Sys)
    requires Plain(i, r) && Isa.IsCompute(i.op)
    ensures Isa.Execute(i, r[0 := 0], s) == Isa.Ran(Computed(r, i), None, Isa.Finish(s))
  {
  }

  lemma IsaRunsPlain()
    ensures RunsPlain(Isa.Step)
  {
    forall st: State, n: nat, i: Inst | Computing(st, n, i)
      ensures Isa.Step(st) == Isa.Next(Isa.State(Computed(st.r, i), Moved(st.sys, n + 1)))
    {
      StepPlain(st, n, i);
    }
  }

  /** The registers after slots a to b, if they all compute. */
  function Block(r: Bank, t: seq<Slot>, a: nat, b: nat): Option<Bank>
    requires b <= |t|
    decreases b - a
  {
    if a >= b then Some(r)
    else if t[a].Some? && Plain(t[a].value, r) then Block(Computed(r, t[a].value), t, a + 1, b)
    else None
  }

  lemma {:induction false} BlockRuns(step: Machine, st: State, a: nat, b: nat, w: Bank)
    requires RunsPlain(step) && At(st, a) && Linked(st.sys.mem.text, a, b, st.sys.syms) && b < |st.sys.mem.text|
    requires Block(st.r, st.sys.mem.text, a, b) == Some(w)
    ensures Run(step, st, b - a) == Some(Isa.State(w, Moved(st.sys, b)))
    decreases b - a
  {
    hide Plain, Computed;
    if a < b {
      var i := st.sys.mem.text[a].value;
      assert Computing(st, a, i);
      var u := Isa.State(Computed(st.r, i), Moved(st.sys, a + 1));
      BlockRuns(step, u, a + 1, b, w);
    }
  }

  // ---------- Constants ----------

  /** The registers u are r with v in rt; $at may have changed. */
  predicate Sets(r: Bank, u: Bank, rt: Reg, v: Word) {
    && (forall k: Reg | k != 1 && k != rt :: RegOf(u, k) == RegOf(r, k))
    && (rt != 0 ==> u[rt] == v)
  }

  lemma BlockOne(r: Bank, t: seq<Slot>, a: nat, i: Inst)
    requires a < |t| && t[a] == Slot.Some(i) && Plain(i, r)
    ensures Block(r, t, a, a + 1) == Some(Computed(r, i))
  {
    assert Block(Computed(r, i), t, a + 1, a + 1) == Some(Computed(r, i));
  }

  lemma {:induction false} BlockOn(r: Bank, t: seq<Slot>, a: nat, b: nat, c: nat, u: Bank)
    requires a <= b <= c <= |t| && Block(r, t, a, b) == Some(u)
    ensures Block(r, t, a, c) == Block(u, t, b, c)
    decreases b - a
  {
    if a < b { BlockOn(Computed(r, t[a].value), t, a + 1, b, c, u); }
  }

  lemma OrZero(v: Word)
    ensures OrW(0, v) == v == OrW(v, 0) && XorW(0, v) == v
  {
    OrWIs(0, v);
    OrWIs(v, 0);
    AndZero(v);
    XorDefined(0, v);
  }

  lemma OrHalves(hi: int, lo: int)
    requires 0 <= hi < 0x1_0000 && 0 <= lo < 0x1_0000
    ensures OrW(hi * 0x1_0000, lo) == hi * 0x1_0000 + lo
  {
    PowersOfTwo();
    OrJoins(hi, lo, 16, 0x1_0000);
  }

  /** The statements that compute with a constant. */
  predicate IsConstOp(op: Op) { op.ADDI? || (Isa.IsImmediate(op) && !op.LUI?) }

  /** What an instruction with the operand v computes. */
  function Meaning(op: Op, vs: Word, v: Word): Word
    requires op.ADDI? || Isa.IsImmediate(op)
  {
    if op.ADDI? then Wrap(vs + v) else Isa.Compute(op, vs, v)
  }

  /** That is the meaning of the operation, in integers and digits. */
  lemma MeaningMeans(op: Op, vs: Word, v: Word)
    requires IsConstOp(op) && NoOverflow(op, vs, v)
    ensures Means(op, vs, v, Meaning(op, vs, v))
  {
    hide Isa.Compute;
    if op.ADDI? {
      SignedSum(vs, v);
      WrapIsSigned(Signed(vs) + Signed(v));
    } else {
      hide Means;
      ComputeMeans(op, vs, v);
    }
  }

  predicate NoOverflow(op: Op, vs: Word, v: Word) { op.ADDI? ==> -0x8000_0000 <= Signed(vs) + Signed(v) < 0x8000_0000 }

  lemma SignedSum(a: Word, b: Word)
    ensures Wrap(Signed(a) + Signed(b)) == Wrap(a + b)
  {
    SameWrap(Signed(a) + Signed(b), a + b, (if a < 0x8000_0000 then 0 else -1) + (if b < 0x8000_0000 then 0 else -1));
  }

  lemma SignedWrap(i: Int32)
    ensures Signed(Wrap(i)) == i
  {
  }

  /** One instruction, on the operand that its field stands for. */
  lemma TakesPlain(s: Slot, op: Op, rt: Reg, rs: Reg, v: Word, r: Bank)
    requires Takes(s, op, rt, rs, v) && (op.ADDI? || (Isa.IsImmediate(op) && !op.LUI?))
             && NoOverflow(op, RegOf(r, rs), v)
    ensures Plain(s.value, r) && Dest(s.value) == rt && Outcome(s.value, r) == Meaning(op, RegOf(r, rs), v)
  {
    if op.ADDI? {
      SignedWrap(s.value.imm);
      SignedSum(RegOf(r, rs), v);
    }
  }

  lemma LuiPlain(s: Slot, rt: Reg, r: Bank, h: int)
    requires IsI(s, LUI, rt, 0) && h == Imm16(s.value)
    ensures Plain(s.value, r) && Dest(s.value) == rt && Outcome(s.value, r) == h * 0x1_0000
  {
  }

  lemma OriPlain(s: Slot, rt: Reg, rs: Reg, r: Bank)
    requires IsI(s, ORI, rt, rs)
    ensures Plain(s.value, r) && Dest(s.value) == rt && Outcome(s.value, r) == OrW(RegOf(r, rs), Imm16(s.value))
  {
  }

  lemma ComputedSets(r: Bank, i: Inst, rt: Reg, v: Word)
    requires Plain(i, r) && Dest(i) == rt && Outcome(i, r) == v
    ensures Sets(r, Computed(r, i), rt, v)
  {
  }

  lemma SetsTwice(r: Bank, u: Bank, w: Bank, x: Word, rt: Reg, v: Word)
    requires Sets(r, u, 1, x) && Sets(u, w, rt, v)
    ensures Sets(r, w, rt, v)
  {
  }

  /** A sequence that loads a constant does. */
  lemma LoadsValueRuns(r: Bank, t: seq<Slot>, a: nat, b: nat, rt: Reg, v: Word) returns (u: Bank)
    requires a <= b <= |t| && LoadsValue(t, a, b, rt, v)
    ensures Block(r, t, a, b) == Some(u) && Sets(r, u, rt, v)
  {
    hide Takes, JoinsUp, Plain, Block, Sets;
    if b == a + 1 {
      u := HalfRuns(r, t, a, rt, v);
    } else {
      u := HalvesRun(r, t, a, rt, v);
    }
  }

  lemma HalfRuns(r: Bank, t: seq<Slot>, a: nat, rt: Reg, v: Word) returns (u: Bank)
    requires a < |t| && (Takes(t[a], LUI, rt, 0, v) || Takes(t[a], ORI, rt, 0, v))
    ensures Block(r, t, a, a + 1) == Some(u) && Sets(r, u, rt, v)
  {
    if t[a].value.op.LUI? {
      LuiPlain(t[a], rt, r, Imm16(t[a].value));
    } else {
      OriPlain(t[a], rt, 0, r);
      OrZero(v);
    }
    u := Computed(r, t[a].value);
    BlockOne(r, t, a, t[a].value);
    ComputedSets(r, t[a].value, rt, v);
  }

  lemma HalvesRun(r: Bank, t: seq<Slot>, a: nat, rt: Reg, v: Word) returns (w: Bank)
    requires a + 1 < |t| && JoinsUp(t[a], t[a + 1], rt, v)
    ensures Block(r, t, a, a + 2) == Some(w) && Sets(r, w, rt, v)
  {
    var h := Imm16(t[a].value);
    LuiPlain(t[a], 1, r, h);
    var u := Computed(r, t[a].value);
    BlockOne(r, t, a, t[a].value);
    ComputedSets(r, t[a].value, 1, h * 0x1_0000);
    OriPlain(t[a + 1], rt, 1, u);
    OrHalves(h, Imm16(t[a + 1].value));
    w := Computed(u, t[a + 1].value);
    BlockOne(u, t, a + 1, t[a + 1].value);
    ComputedSets(u, t[a + 1].value, rt, v);
    SetsTwice(r, u, w, h * 0x1_0000, rt, v);
    BlockOn(r, t, a, a + 1, a + 2, u);
  }

  /** LUI with its operand in its field, or as a value to load. */
  predicate UpperLoaded(t: seq<Slot>, a: nat, b: nat, rt: Reg, rs: Reg, v: Word, fits: bool)
    requires a <= b <= |t|
  {
    if fits then v < 0x1_0000 && b == a + 1 && Takes(t[a], LUI, rt, rs, v * 0x1_0000) else LoadsValue(t, a, b, rt, v)
  }

  lemma UpperRuns(r: Bank, t: seq<Slot>, a: nat, b: nat, rt: Reg, rs: Reg, v: Word, fits: bool) returns (u: Bank)
    requires a <= b <= |t| && UpperLoaded(t, a, b, rt, rs, v, fits)
    ensures Block(r, t, a, b) == Some(u) && Sets(r, u, rt, if fits then v * 0x1_0000 else v)
  {
    hide Takes, LoadsValue, Plain, Block, Sets;
    if fits {
      FieldPlain(t[a], rt, rs, v, r);
      u := Computed(r, t[a].value);
      BlockOne(r, t, a, t[a].value);
      ComputedSets(r, t[a].value, rt, v * 0x1_0000);
    } else {
      u := LoadsValueRuns(r, t, a, b, rt, v);
    }
  }

  lemma FieldPlain(s: Slot, rt: Reg, rs: Reg, v: Word, r: Bank)
    requires v < 0x1_0000 && Takes(s, LUI, rt, rs, v * 0x1_0000)
    ensures s.Some? && Plain(s.value, r) && Dest(s.value) == rt && Outcome(s.value, r) == v * 0x1_0000
  {
    assert Imm16(s.value) == v;
  }

  // ---------- Computations on constants ----------

  lemma FromZero(op: Op, v: Word)
    requires LoadsDirectly(op, 0) && !op.LUI?
    ensures Meaning(op, 0, v) == v
  {
    OrZero(v);
  }

  /** The register form of an operation, with the constant in $at. */
  lemma ThroughPlain(s: Slot, op: Op, rt: Reg, rs: Reg, v: Word, r: Bank)
    requires IsConstOp(op) && ImmOpToOp(op).Some? && IsR(s, ImmOpToOp(op).value, rt, rs, 1)
    requires r[1] == v && NoOverflow(op, RegOf(r, rs), v)
    ensures Plain(s.value, r) && Dest(s.value) == rt && Outcome(s.value, r) == Meaning(op, RegOf(r, rs), v)
  {
    if op.ADDI? {
      SignedSum(RegOf(r, rs), v);
    } else {
      RegisterForm(op, ImmOpToOp(op).value, RegOf(r, rs), v);
    }
  }

  lemma RegisterForm(op: Op, op': Op, vs: Word, v: Word)
    requires IsConstOp(op) && !op.ADDI? && ImmOpToOp(op) == Some(op')
    ensures Isa.IsCompute(op') && !Isa.IsImmediate(op') && !op'.ADD? && !op'.ADDI?
    ensures Isa.Compute(op', vs, v) == Isa.Compute(op, vs, v)
  {
    hide AndW, OrW, XorW, Wrap;
    assert Isa.IsCompute(op) && Isa.IsCompute(op');
  }

  /** The expansion of a computation on a constant sets rt to the result on the whole constant. */
  lemma ComputesRuns(r: Bank, t: seq<Slot>, a: nat, b: nat, op: Op, rt: Reg, rs: Reg, v: Word) returns (w: Bank)
    requires a <= b <= |t| && Computes(t, a, b, op, rt, rs, v) && IsConstOp(op) && rs != 1
             && NoOverflow(op, RegOf(r, rs), v)
    ensures Block(r, t, a, b) == Some(w) && Sets(r, w, rt, Meaning(op, RegOf(r, rs), v))
    ensures Means(op, RegOf(r, rs), v, Meaning(op, RegOf(r, rs), v))
  {
    hide Means;
    MeaningMeans(op, RegOf(r, rs), v);
    if b == a + 1 && Takes(t[a], op, rt, rs, v) {
      TakesPlain(t[a], op, rt, rs, v, r);
      w := Computed(r, t[a].value);
      BlockOne(r, t, a, t[a].value);
      ComputedSets(r, t[a].value, rt, Meaning(op, RegOf(r, rs), v));
    } else if LoadsDirectly(op, rs) {
      FromZero(op, v);
      w := LoadsValueRuns(r, t, a, b, rt, v);
    } else {
      w := ThroughRuns(r, t, a, b, op, rt, rs, v);
    }
  }

  lemma ThroughRuns(r: Bank, t: seq<Slot>, a: nat, b: nat, op: Op, rt: Reg, rs: Reg, v: Word) returns (w: Bank)
    requires a + 2 <= b <= |t| && LoadsValue(t, a, b - 1, 1, v) && IsConstOp(op) && ImmOpToOp(op).Some?
    requires IsR(t[b - 1], ImmOpToOp(op).value, rt, rs, 1) && rs != 1 && NoOverflow(op, RegOf(r, rs), v)
    ensures Block(r, t, a, b) == Some(w) && Sets(r, w, rt, Meaning(op, RegOf(r, rs), v))
  {
    hide LoadsValue, ImmOpToOp, Isa.Compute;
    var u := LoadsValueRuns(r, t, a, b - 1, 1, v);
    w := LastRuns(u, t[b - 1], op, rt, rs, v);
    BlockOne(u, t, b - 1, t[b - 1].value);
    SetsTwice(r, u, w, v, rt, Meaning(op, RegOf(r, rs), v));
    BlockOn(r, t, a, b - 1, b, u);
  }

  lemma LastRuns(u: Bank, s: Slot, op: Op, rt: Reg, rs: Reg, v: Word) returns (w: Bank)
    requires IsConstOp(op) && ImmOpToOp(op).Some? && IsR(s, ImmOpToOp(op).value, rt, rs, 1)
    requires u[1] == v && NoOverflow(op, RegOf(u, rs), v)
    ensures Plain(s.value, u) && w == Computed(u, s.value) && Sets(u, w, rt, Meaning(op, RegOf(u, rs), v))
  {
    ThroughPlain(s, op, rt, rs, v, u);
    w := Computed(u, s.value);
    ComputedSets(u, s.value, rt, Meaning(op, RegOf(u, rs), v));
  }

  // ---------- Accesses ----------

  /** What the last instruction of an access finds: its address adds up, and only $at is changed. */
  predicate Addresses(r: Bank, u: Bank, i: Inst, op: Op, rt: Reg, ea: Word) {
    && i.op == op && i.rt == rt && Wrap(RegOf(u, i.rs) + i.imm) == ea
    && forall k: Reg | k != 1 :: RegOf(u, k) == RegOf(r, k)
  }

  lemma AdduPlain(s: Slot, rd: Reg, rs: Reg, rt: Reg, r: Bank)
    requires IsR(s, ADDU, rd, rs, rt)
    ensures Plain(s.value, r) && Dest(s.value) == rd && Outcome(s.value, r) == Wrap(RegOf(r, rs) + RegOf(r, rt))
  {
  }

  lemma WrapAdds(x: int, y: int, imm: int)
    ensures Wrap(Wrap(x + y) + imm) == Wrap(y + Wrap(x + imm))
  {
    var p, q := (x + y) / 0x1_0000_0000, (x + imm) / 0x1_0000_0000;
    WrapParts(x + y);
    WrapParts(x + imm);
    SameWrap(Wrap(x + y) + imm, x + y + imm, -p);
    SameWrap(y + Wrap(x + imm), x + y + imm, -q);
  }

  /** The expansion of an access reaches the address R[rs] + d. */
  lemma AccessesRuns(r: Bank, t: seq<Slot>, a: nat, b: nat, op: Op, rt: Reg, rs: Reg, d: Word) returns (u: Bank)
    requires a < b <= |t| && Accesses(t, a, b, op, rt, rs, d) && ExtendsSign(op) && !op.LUI? && rs != 1
    ensures t[b - 1].Some? && Block(r, t, a, b - 1) == Some(u)
    ensures Addresses(r, u, t[b - 1].value, op, rt, Wrap(RegOf(r, rs) + d))
  {
    hide ExtendsSign, Addresses, Takes, RegOf, Wrap;
    if b == a + 1 {
      u := r;
      DirectAddress(t[a], op, rt, rs, d, r);
    } else {
      u := HighRuns(r, t, a, b, op, rt, rs, d);
    }
  }

  lemma DirectAddress(s: Slot, op: Op, rt: Reg, rs: Reg, d: Word, r: Bank)
    requires Takes(s, op, rt, rs, d) && ExtendsSign(op) && !op.LUI?
    ensures s.Some? && Addresses(r, r, s.value, op, rt, Wrap(RegOf(r, rs) + d))
  {
    hide ExtendsSign;
    var imm: int := s.value.imm;
    WrapAdds(0, RegOf(r, rs), imm);
  }

  lemma HighRuns(r: Bank, t: seq<Slot>, a: nat, b: nat, op: Op, rt: Reg, rs: Reg, d: Word) returns (w: Bank)
    requires a + 1 < b <= |t| && IsI(t[a], LUI, 1, 0) && IsI(t[b - 1], op, rt, 1) && rs != 1
    requires if rs == 0 then b == a + 2 else b == a + 3 && IsR(t[a + 1], ADDU, 1, 1, rs)
    requires Wrap(Imm16(t[a].value) * 0x1_0000 + t[b - 1].value.imm) == d
    ensures t[b - 1].Some? && Block(r, t, a, b - 1) == Some(w)
    ensures Addresses(r, w, t[b - 1].value, op, rt, Wrap(RegOf(r, rs) + d))
  {
    w := BaseRuns(r, t, a, b, rs);
    OffAt(r, w, t[b - 1].value, op, rt, Imm16(t[a].value) * 0x1_0000, RegOf(r, rs), d);
  }

  /** LUI, and ADDU when there is a base register. */
  lemma BaseRuns(r: Bank, t: seq<Slot>, a: nat, b: nat, rs: Reg) returns (w: Bank)
    requires a + 1 < b <= |t| && IsI(t[a], LUI, 1, 0) && rs != 1
    requires if rs == 0 then b == a + 2 else b == a + 3 && IsR(t[a + 1], ADDU, 1, 1, rs)
    ensures Block(r, t, a, b - 1) == Some(w) && Sets(r, w, 1, Wrap(Imm16(t[a].value) * 0x1_0000 + RegOf(r, rs)))
  {
    var h := Imm16(t[a].value) * 0x1_0000;
    LuiPlain(t[a], 1, r, Imm16(t[a].value));
    var u := Computed(r, t[a].value);
    BlockOne(r, t, a, t[a].value);
    ComputedSets(r, t[a].value, 1, h);
    if rs == 0 {
      w := u;
    } else {
      w := IndexRuns(u, t[a + 1], rs);
      BlockOne(u, t, a + 1, t[a + 1].value);
      BlockOn(r, t, a, a + 1, a + 2, u);
    }
  }

  lemma IndexRuns(u: Bank, s: Slot, rs: Reg) returns (w: Bank)
    requires IsR(s, ADDU, 1, 1, rs)
    ensures Plain(s.value, u) && w == Computed(u, s.value) && Sets(u, w, 1, Wrap(u[1] + RegOf(u, rs)))
  {
    AdduPlain(s, 1, 1, rs, u);
    w := Computed(u, s.value);
    ComputedSets(u, s.value, 1, Wrap(u[1] + RegOf(u, rs)));
  }

  lemma OffAt(r: Bank, w: Bank, lo: Inst, op: Op, rt: Reg, h: Word, base: Word, d: Word)
    requires lo.op == op && lo.rt == rt && lo.rs == 1 && Wrap(h + lo.imm) == d
    requires Sets(r, w, 1, Wrap(h + base))
    ensures Addresses(r, w, lo, op, rt, Wrap(base + d))
  {
    WrapAdds(h, base, lo.imm);
  }

  // ---------- Branches and jumps ----------

  /** A branch with the field of displacement v goes where v says exactly when v is a whole number
      of words and fits in 16 bits. */
  lemma BranchLands(pc: Word, v: Word)
    ensures Wrap(pc + Idisp(S16(v) / 4)) == Wrap(pc + v) <==> v % 4 == 0 && -0x8000 <= Signed(v) < 0x8000
  {
    var d := S16(v) / 4 * 4;
    IdispOf(S16(v));
    if Wrap(pc + d) == Wrap(pc + v) { LandsOnly(pc, v, d); }
    if v % 4 == 0 && -0x8000 <= Signed(v) < 0x8000 { LandsThere(pc, v, d); }
  }

  lemma LandsOnly(pc: Word, v: Word, d: int)
    requires Wrap(pc + d) == Wrap(pc + v) && -0x8000 <= d < 0x8000 && d % 4 == 0
    ensures v % 4 == 0 && -0x8000 <= Signed(v) < 0x8000
  {
    WrapParts(pc + d);
    WrapParts(pc + v);
    NearWrap(v, d, (pc + v) / 0x1_0000_0000 - (pc + d) / 0x1_0000_0000);
  }

  lemma LandsThere(pc: Word, v: Word, d: int)
    requires v % 4 == 0 && -0x8000 <= Signed(v) < 0x8000 && d == S16(v) / 4 * 4
    ensures Wrap(pc + d) == Wrap(pc + v)
  {
    WholeWords(v);
    SameWrap(pc + d, pc + v, if v < 0x8000_0000 then 0 else -1);
  }

  lemma WholeWords(v: Word)
    requires v % 4 == 0 && -0x8000 <= Signed(v) < 0x8000
    ensures S16(v) / 4 * 4 == Signed(v)
  {
    assert S16(v) == Signed(v);
    assert Signed(v) % 4 == 0;
  }

  lemma IdispOf(x: Int16)
    ensures Idisp(x / 4) == x / 4 * 4
  {
  }

  lemma NearWrap(v: Word, d: int, k: int)
    requires -0x8000 <= d < 0x8000 && v - d == k * 0x1_0000_0000 && d % 4 == 0
    ensures v % 4 == 0 && Signed(v) == d
  {
    assert k == 0 || k == 1;
  }

  /** A jump goes to v exactly when v is aligned and in the region of the PC. */
  lemma JumpLands(pc: Word, v: Word)
    ensures Isa.JumpAddress(pc, v % 0x1000_0000 / 4) == v <==> v % 4 == 0 && v / 0x1000_0000 == pc / 0x1000_0000
  {
    var t := v % 0x1000_0000 / 4;
    PowersOfTwo();
    TargetShift(t);
    JumpJoins(pc / 0x1000_0000, t * 4);
    assert pc - pc % 0x1000_0000 == pc / 0x1000_0000 * 0x1000_0000;
    RegionParts(pc / 0x1000_0000, v);
  }

  lemma RegionParts(region: nat, v: Word)
    ensures region * 0x1000_0000 + v % 0x1000_0000 / 4 * 4 == v <==> v % 4 == 0 && v / 0x1000_0000 == region
  {
  }

  lemma TargetShift(t: Word)
    requires t < 0x400_0000
    ensures Isa.ShiftLeft(t, 2) == t * 4
  {
    PowersOfTwo();
  }

  lemma JumpJoins(region: nat, low: nat)
    requires region < 16 && low < 0x1000_0000
    ensures OrW(region * 0x1000_0000, low) == region * 0x1000_0000 + low
  {
    PowersOfTwo();
    assert Pow2(28) == 0x1000_0000;
    OrJoins(region, low, 28, 0x1000_0000);
  }

  // ---------- Instructions that access memory or transfer control ----------

  /** Instruction i at slot n of st. */
  predicate Running(st: State, n: nat, i: Inst) {
    At(st, n) && st.sys.mem.text[n] == Slot.Some(i) && !Isa.Undefined(i, st.sys.syms)
  }

  /** A load or store of op at address ea. */
  function AccessOf(op: Op, ea: Word, rt: Reg, vt: Word, s: Sys): Isa.Outcome {
    if Isa.IsLoad(op) then Isa.LoadAccess(op, ea, rt, vt, s) else Isa.Stored(Isa.ExecStore(op, ea, vt, s))
  }

  function Accessed(st: State, op: Op, ea: Word, rt: Reg): Isa.Result {
    Isa.Deliver(Isa.Complete(AccessOf(op, ea, rt, RegOf(st.r, rt), st.sys), st.r[0 := 0]))
  }

  ghost predicate RunsAccesses(step: Machine, access: AccessEffect) {
    forall st: State, n: nat, i: Inst | Running(st, n, i) && (Isa.IsLoad(i.op) || Isa.IsStore(i.op)) ::
      step(st) == access(st, i.op, Wrap(RegOf(st.r, i.rs) + i.imm), i.rt)
  }

  lemma ExecAccess(i: Inst, vs: Word, vt: Word, s: Sys)
    requires Isa.IsLoad(i.op) || Isa.IsStore(i.op)
    ensures Isa.Exec(i, vs, vt, s) == AccessOf(i.op, Wrap(vs + i.imm), i.rt, vt, s)
  {
    NotRegister(i.op);
    if Isa.IsLoad(i.op) {
      ExecLoad(i, vs, vt, s, Isa.LoadAccess(i.op, Wrap(vs + i.imm), i.rt, vt, s));
    } else {
      ExecStores(i, vs, vt, s, Isa.ExecStore(i.op, Wrap(vs + i.imm), vt, s));
    }
  }

  lemma NotRegister(op: Op)
    requires Isa.IsLoad(op) || Isa.IsStore(op)
    ensures !Isa.IsRegister(op) && !(Isa.IsLoad(op) && Isa.IsStore(op))
  {
  }

  lemma ExecLoad(i: Inst, vs: Word, vt: Word, s: Sys, o: Isa.Outcome)
    requires Isa.IsLoad(i.op) && !Isa.IsRegister(i.op) && o == Isa.LoadAccess(i.op, Wrap(vs + i.imm), i.rt, vt, s)
    ensures Isa.Exec(i, vs, vt, s) == o
  {
    hide Isa.IsLoad, Isa.IsRegister, Isa.LoadAccess, Isa.ExecStore, Isa.ExecRegister, Isa.ExecControl;
  }

  lemma ExecStores(i: Inst, vs: Word, vt: Word, s: Sys, x: Option<Sys>)
    requires Isa.IsStore(i.op) && !Isa.IsLoad(i.op) && !Isa.IsRegister(i.op)
             && x == Isa.ExecStore(i.op, Wrap(vs + i.imm), vt, s)
    ensures Isa.Exec(i, vs, vt, s) == Isa.Stored(x)
  {
    hide Isa.IsLoad, Isa.IsStore, Isa.IsRegister, Isa.LoadAccess, Isa.ExecStore, Isa.ExecRegister, Isa.ExecControl;
  }

  lemma AccessExecutes(i: Inst, r: Bank, s: Sys, o: Isa.Outcome)
    requires !i.op.SYSCALL? && o == Isa.Exec(i, RegOf(r, i.rs), RegOf(r, i.rt), s)
    ensures Isa.Execute(i, r[0 := 0], s) == Isa.Complete(o, r[0 := 0])
  {
  }

  lemma StepIs(st: State, n: nat, i: Inst, e: Isa.Executed)
    requires Running(st, n, i) && e == Isa.Execute(i, st.r[0 := 0], st.sys)
    ensures Isa.Step(st) == Isa.Deliver(e)
  {
    IssueAt(st, n, i);
  }

  lemma NoSyscall(op: Op)
    requires Isa.IsLoad(op) || Isa.IsStore(op)
    ensures !op.SYSCALL?
  {
  }

  lemma StepAccess(st: State, n: nat, i: Inst)
    requires Running(st, n, i) && (Isa.IsLoad(i.op) || Isa.IsStore(i.op))
    ensures Isa.Step(st) == Accessed(st, i.op, Wrap(RegOf(st.r, i.rs) + i.imm), i.rt)
  {
    hide Running, AccessOf, Isa.IsLoad, Isa.IsStore, Isa.Step, Isa.Complete;
    NoSyscall(i.op);
    var o := AccessOf(i.op, Wrap(RegOf(st.r, i.rs) + i.imm), i.rt, RegOf(st.r, i.rt), st.sys);
    ExecAccess(i, RegOf(st.r, i.rs), RegOf(st.r, i.rt), st.sys);
    AccessExecutes(i, st.r, st.sys, o);
    StepIs(st, n, i, Isa.Complete(o, st.r[0 := 0]));
  }

  function Linking(r: Bank, links: bool, pc: Word): Bank { if links then r[0 := 0][31 := Wrap(pc + 4)] else r[0 := 0] }

  /** A branch by v bytes: the condition on the digits of its operands decides. */
  function Branched(st: State, i: Inst, v: Word): State
    requires IsBranch(i.op)
  {
    var taken := Condition(i.op, Seen(i, RegOf(st.r, i.rs), st.sys.pc), RegOf(st.r, i.rt));
    Isa.State(Linking(st.r, SavesPc(i.op), st.sys.pc),
              st.sys.(pc := PcAfter(taken, Nullifies(i.op), st.sys.pc, v)))
  }

  ghost predicate RunsBranches(step: Machine) {
    forall st: State, n: nat, i: Inst, v: Word |
      Running(st, n, i) && IsBranch(i.op) && Wrap(st.sys.pc + Idisp(i.imm)) == Wrap(st.sys.pc + v) ::
      step(st) == Isa.Next(Branched(st, i, v))
  }

  lemma StepBranch(st: State, n: nat, i: Inst, v: Word)
    requires Running(st, n, i) && IsBranch(i.op) && Wrap(st.sys.pc + Idisp(i.imm)) == Wrap(st.sys.pc + v)
    ensures Isa.Step(st) == Isa.Next(Branched(st, i, v))
  {
    hide Isa.Exec, Isa.Step, Isa.Execute, Isa.Finish, Condition, Nullifies, SavesPc, Seen, Idisp, IsDisplacement;
    var s, r := st.sys, st.r;
    var d, t := Branches(i, RegOf(r, i.rs), RegOf(r, i.rt), s);
    AccessExecutes(i, r, s, Isa.Done(if SavesPc(i.op) then Some(Isa.RegWrite(31, Wrap(s.pc + 4))) else None, None, t));
    StepIs(st, n, i, Isa.Execute(i, r[0 := 0], s));
  }

  function Jumped(st: State, op: Op, v: Word): State {
    Isa.State(Linking(st.r, op.JAL?, st.sys.pc), st.sys.(pc := v))
  }

  ghost predicate RunsJumps(step: Machine) {
    forall st: State, n: nat, i: Inst | Running(st, n, i) && IsJump(i.op) ::
      step(st) == Isa.Next(Jumped(st, i.op, Isa.JumpAddress(st.sys.pc, i.target)))
  }

  lemma StepJump(st: State, n: nat, i: Inst)
    requires Running(st, n, i) && IsJump(i.op)
    ensures Isa.Step(st) == Isa.Next(Jumped(st, i.op, Isa.JumpAddress(st.sys.pc, i.target)))
  {
    var v := Isa.JumpAddress(st.sys.pc, i.target);
    JumpExecutes(i, st.r, st.sys, v);
    StepIs(st, n, i, Isa.Ran(Linking(st.r, i.op.JAL?, st.sys.pc), None, st.sys.(pc := v)));
  }

  lemma JumpExecutes(i: Inst, r: Bank, s: Sys, v: Word)
    requires IsJump(i.op) && !s.exc && Isa.JumpAddress(s.pc, i.target) == v
    ensures Isa.Execute(i, r[0 := 0], s) == Isa.Ran(Linking(r, i.op.JAL?, s.pc), None, s.(pc := v))
  {
    hide Isa.IsLoad, Isa.IsStore, Isa.IsRegister, IsBranch, Isa.IsTransfer, Isa.JumpAddress;
    Control.JumpOnly(i.op);
    BackAndOn(v);
  }

  /** All that the assembler counts on. */
  ghost predicate Faithful(step: Machine, access: AccessEffect) {
    RunsPlain(step) && RunsAccesses(step, access) && RunsBranches(step) && RunsJumps(step)
  }

  lemma IsaFaithful()
    ensures Faithful(Isa.Step, Accessed)
  {
    IsaRunsPlain();
    IsaRunsAccesses();
    IsaTransfers();
  }

  lemma IsaRunsAccesses()
    ensures RunsAccesses(Isa.Step, Accessed)
  {
    forall st: State, n: nat, i: Inst | Running(st, n, i) && (Isa.IsLoad(i.op) || Isa.IsStore(i.op))
      ensures Isa.Step(st) == Accessed(st, i.op, Wrap(RegOf(st.r, i.rs) + i.imm), i.rt)
    {
      StepAccess(st, n, i);
    }
  }

  lemma IsaTransfers()
    ensures RunsBranches(Isa.Step) && RunsJumps(Isa.Step)
  {
    forall st: State, n: nat, i: Inst, v: Word |
      Running(st, n, i) && IsBranch(i.op) && Wrap(st.sys.pc + Idisp(i.imm)) == Wrap(st.sys.pc + v)
      ensures Isa.Step(st) == Isa.Next(Branched(st, i, v))
    {
      StepBranch(st, n, i, v);
    }
    forall st: State, n: nat, i: Inst | Running(st, n, i) && IsJump(i.op)
      ensures Isa.Step(st) == Isa.Next(Jumped(st, i.op, Isa.JumpAddress(st.sys.pc, i.target)))
    {
      StepJump(st, n, i);
    }
  }

  // ---------- Statements ----------

  /** The finished text t of a program is in place, and the machine is at its slot a. */
  predicate Loaded(st: State, t: seq<Slot>, a: nat, b: nat) {
    At(st, a) && st.sys.mem.text == t && Linked(t, a, b, st.sys.syms) && a < b < |t|
  }

  /** A computation on a constant or a label: rt gets the meaning of the operation on it, and the
      registers but rt and $at, and all the rest of the machine, are as they were. */
  lemma ConstantRuns(step: Machine, access: AccessEffect, st: State, t: seq<Slot>, a: nat, b: nat, op: Op, rt: Reg,
      rs: Reg, v: Word)
      returns (w: Bank, x: Word)
    requires Faithful(step, access) && Loaded(st, t, a, b) && Fulfils(t, a, b, op, rt, rs, v)
    requires IsConstOp(op) && rs != 1 && NoOverflow(op, RegOf(st.r, rs), v)
    ensures Run(step, st, b - a) == Some(Isa.State(w, Moved(st.sys, b)))
    ensures Sets(st.r, w, rt, x) && Means(op, RegOf(st.r, rs), v, x)
  {
    hide Means, Isa.Compute;
    x := Meaning(op, RegOf(st.r, rs), v);
    MeaningMeans(op, RegOf(st.r, rs), v);
    ConstComputes(t, a, b, op, rt, rs, v);
    w := ComputesRuns(st.r, t, a, b, op, rt, rs, v);
    BlockRuns(step, st, a, b, w);
  }

  lemma ConstComputes(t: seq<Slot>, a: nat, b: nat, op: Op, rt: Reg, rs: Reg, v: Word)
    requires a <= b <= |t| && Fulfils(t, a, b, op, rt, rs, v) && IsConstOp(op)
    ensures Computes(t, a, b, op, rt, rs, v)
  {
    ConstOnly(op);
    hide Computes, Accesses, IsConstOp, IsLoadStore, IsBranch, IsJump;
  }

  lemma ConstOnly(op: Op)
    requires IsConstOp(op)
    ensures !IsLoadStore(op) && !IsBranch(op) && !IsJump(op)
  {
  }

  /** LUI, on either reading of its operand. */
  lemma UpperHalfRuns(step: Machine, access: AccessEffect, st: State, t: seq<Slot>, a: nat, b: nat, rt: Reg, rs: Reg,
      v: Word, fits: bool)
      returns (w: Bank)
    requires Faithful(step, access) && Loaded(st, t, a, b) && UpperLoaded(t, a, b, rt, rs, v, fits)
    ensures Run(step, st, b - a) == Some(Isa.State(w, Moved(st.sys, b)))
    ensures Sets(st.r, w, rt, if fits then v * 0x1_0000 else v)
  {
    hide UpperLoaded;
    w := UpperRuns(st.r, t, a, b, rt, rs, v, fits);
    BlockRuns(step, st, a, b, w);
  }

  /** A load or store: the instructions before the last one only change $at, and the last one
      accesses the address R[rs] + v. */
  lemma AccessRuns(step: Machine, access: AccessEffect, st: State, t: seq<Slot>, a: nat, b: nat, op: Op, rt: Reg,
      rs: Reg, v: Word)
      returns (u: State)
    requires Faithful(step, access) && Loaded(st, t, a, b) && Accesses(t, a, b, op, rt, rs, v)
    requires (Isa.IsLoad(op) || Isa.IsStore(op)) && rs != 1
    ensures Run(step, st, b - a - 1) == Some(u) && u.sys == Moved(st.sys, b - 1)
    ensures forall k: Reg | k != 1 :: RegOf(u.r, k) == RegOf(st.r, k)
    ensures step(u) == access(u, op, Wrap(RegOf(st.r, rs) + v), rt)
  {
    hide Accesses, RunsBranches, RunsJumps, Isa.IsLoad, Isa.IsStore, ExtendsSign, IsLoadStore, Linked, Running;
    AccessExtends(op);
    var i: Inst;
    u, i := AddressRuns(step, st, t, a, b, op, rt, rs, v);
    LastAccess(step, access, u, i, b - 1, op);
  }

  lemma AddressRuns(step: Machine, st: State, t: seq<Slot>, a: nat, b: nat, op: Op, rt: Reg, rs: Reg, v: Word)
      returns (u: State, i: Inst)
    requires RunsPlain(step) && Loaded(st, t, a, b) && Accesses(t, a, b, op, rt, rs, v)
    requires ExtendsSign(op) && !op.LUI? && rs != 1
    ensures Run(step, st, b - a - 1) == Some(u) && u.sys == Moved(st.sys, b - 1)
    ensures Running(u, b - 1, i) && Addresses(st.r, u.r, i, op, rt, Wrap(RegOf(st.r, rs) + v))
  {
    var w := AccessesRuns(st.r, t, a, b, op, rt, rs, v);
    i := t[b - 1].value;
    u := Isa.State(w, Moved(st.sys, b - 1));
    PrefixRuns(step, st, t, a, b, w);
  }

  lemma AccessExtends(op: Op)
    requires Isa.IsLoad(op) || Isa.IsStore(op)
    ensures ExtendsSign(op) && !op.LUI? && IsLoadStore(op)
  {
  }

  lemma PrefixRuns(step: Machine, st: State, t: seq<Slot>, a: nat, b: nat, w: Bank)
    requires RunsPlain(step) && Loaded(st, t, a, b) && Block(st.r, t, a, b - 1) == Some(w)
    ensures Run(step, st, b - a - 1) == Some(Isa.State(w, Moved(st.sys, b - 1)))
    ensures Running(Isa.State(w, Moved(st.sys, b - 1)), b - 1, t[b - 1].value)
  {
    BlockRuns(step, st, a, b - 1, w);
  }

  lemma LastAccess(step: Machine, access: AccessEffect, u: State, i: Inst, n: nat, op: Op)
    requires RunsAccesses(step, access) && Running(u, n, i) && i.op == op && (Isa.IsLoad(op) || Isa.IsStore(op))
    ensures step(u) == access(u, op, Wrap(RegOf(u.r, i.rs) + i.imm), i.rt)
  {
  }

  /** A branch whose displacement is a whole number of words within 32 kilobytes goes to its label
      when taken, and on when not. */
  lemma BranchRuns(step: Machine, access: AccessEffect, st: State, t: seq<Slot>, a: nat, b: nat, op: Op, rt: Reg,
      rs: Reg, v: Word)
    requires Faithful(step, access) && Loaded(st, t, a, b) && Fulfils(t, a, b, op, rt, rs, v) && IsBranch(op)
    requires v % 4 == 0 && -0x8000 <= Signed(v) < 0x8000
    ensures IsI(t[a], op, rt, rs) && step(st) == Isa.Next(Branched(st, t[a].value, v))
  {
    BranchLands(st.sys.pc, v);
    BranchStep(step, st, a, t[a].value, v);
  }

  lemma BranchStep(step: Machine, st: State, n: nat, i: Inst, v: Word)
    requires RunsBranches(step) && Running(st, n, i) && IsBranch(i.op) && i.imm == S16(v) / 4
    requires Wrap(st.sys.pc + Idisp(S16(v) / 4)) == Wrap(st.sys.pc + v)
    ensures step(st) == Isa.Next(Branched(st, i, v))
  {
  }

  /** A jump to an aligned label in the region of its PC lands on it. */
  lemma JumpRuns(step: Machine, access: AccessEffect, st: State, t: seq<Slot>, a: nat, b: nat, op: Op, v: Word)
    requires Faithful(step, access) && Loaded(st, t, a, b) && Fulfils(t, a, b, op, 0, 0, v) && IsJump(op)
    requires v % 4 == 0 && v / 0x1000_0000 == st.sys.pc / 0x1000_0000
    ensures step(st) == Isa.Next(Jumped(st, op, v))
  {
    JumpLands(st.sys.pc, v);
    assert Running(st, a, t[a].value);
  }
}
