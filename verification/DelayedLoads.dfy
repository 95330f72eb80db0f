/** The machine whose loads deliver after the following instruction simulates the machine whose loads
    deliver at once, as long as no instruction touches what the one just before it has loaded, or
    reads $0 while a load to $0 is delivered. */
module DelayedLoads {
  import opened Word
  import opened Instruction
  import opened Isa

  // ---------- What an instruction reads ----------

  predicate ReadsRs(op: Op) {
    (IsCompute(op) && !op.LUI?) || IsSum(op) || op.SLLV? || op.SRLV? || op.SRAV? ||
    op.MOVN? || op.MOVZ? || op.CLO? || op.CLZ? || op.MTHI? || op.MTLO? || IsMultiply(op) || op.DIV? || op.DIVU? ||
    IsLoad(op) || IsStore(op) || IsBranch(op) || op.JR? || op.JALR? || IsTrap(op)
  }

  predicate ReadsRt(op: Op) {
    (IsCompute(op) && !IsImmediate(op)) || op.ADD? || op.SUB? || IsShift(op) ||
    op.MOVN? || op.MOVZ? || op.MTC0? || IsMultiply(op) || op.DIV? || op.DIVU? ||
    op.LWL? || op.LWR? || IsStore(op) || op.BEQ? || op.BEQL? || op.BNE? || op.BNEL? ||
    op.TEQ? || op.TNE? || op.TGE? || op.TGEU? || op.TLT? || op.TLTU?
  }

  /** The result does not depend on what is not read. */
  predicate Agree(op: Op, vs: Word, vt: Word, us: Word, ut: Word) {
    (ReadsRs(op) ==> us == vs) && (ReadsRt(op) ==> ut == vt)
  }

  lemma RegisterIgnores(i: Inst, vs: Word, vt: Word, us: Word, ut: Word, s: Sys)
    requires Agree(i.op, vs, vt, us, ut) && IsRegister(i.op)
    ensures ExecRegister(i, us, ut, s) == ExecRegister(i, vs, vt, s)
  {
    hide Compute, Shifted, Multiply, Divide, LeadingRun, ExactSum;
    if IsCompute(i.op) { ComputeIgnores(i, vs, vt, us, ut, s); }
    else if IsSum(i.op) { SumIgnores(i, vs, vt, us, ut); }
    else if IsShift(i.op) { ShiftIgnores(i, vs, vt, us, ut); }
    else if IsMove(i.op) { MoveIgnores(i, vs, vt, us, ut, s); }
    else { assert us == vs && ut == vt; }
  }

  lemma SumIgnores(i: Inst, vs: Word, vt: Word, us: Word, ut: Word)
    requires Agree(i.op, vs, vt, us, ut) && IsSum(i.op)
    ensures ExactSum(i, us, ut) == ExactSum(i, vs, vt)
  {
  }

  lemma ComputeIgnores(i: Inst, vs: Word, vt: Word, us: Word, ut: Word, s: Sys)
    requires Agree(i.op, vs, vt, us, ut) && IsCompute(i.op)
    ensures ExecCompute(i, us, ut, s) == ExecCompute(i, vs, vt, s)
  {
  }

  lemma ShiftIgnores(i: Inst, vs: Word, vt: Word, us: Word, ut: Word)
    requires Agree(i.op, vs, vt, us, ut) && IsShift(i.op)
    ensures Shifted(i, us, ut) == Shifted(i, vs, vt)
  {
    hide ShiftLeft, ShiftRight, ShiftArith;
  }

  lemma MoveIgnores(i: Inst, vs: Word, vt: Word, us: Word, ut: Word, s: Sys)
    requires Agree(i.op, vs, vt, us, ut) && IsMove(i.op)
    ensures Move(i, us, ut, s) == Move(i, vs, vt, s)
  {
    hide LeadingRun, MoveToCp0;
  }

  lemma LoadIgnores(i: Inst, ea: Word, vt: Word, ut: Word, s: Sys)
    requires IsLoad(i.op) && (ReadsRt(i.op) ==> ut == vt)
    ensures LoadAccess(i.op, ea, i.rt, ut, s) == LoadAccess(i.op, ea, i.rt, vt, s)
  {
    hide ReadMem, MergeLeft, MergeRight;
  }

  lemma BranchIgnores(i: Inst, vs: Word, vt: Word, ut: Word, s: Sys)
    requires IsBranch(i.op) && (ReadsRt(i.op) ==> ut == vt)
    ensures ExecBranch(i, vs, ut, s) == ExecBranch(i, vs, vt, s)
  {
    hide Branch, Links, IsLikely;
  }

  lemma TransferIgnores(i: Inst, vs: Word, us: Word, s: Sys)
    requires IsTransfer(i.op) && (ReadsRs(i.op) ==> us == vs)
    ensures Transfer(i, us, s) == Transfer(i, vs, s)
  {
    hide JumpTo, JumpAddress;
  }

  lemma TrapIgnores(i: Inst, vs: Word, vt: Word, us: Word, ut: Word, s: Sys)
    requires Agree(i.op, vs, vt, us, ut) && IsTrap(i.op)
    ensures ExecTrap(i, us, ut, s) == ExecTrap(i, vs, vt, s)
  {
    hide Raise;
  }

  lemma ControlIgnores(i: Inst, vs: Word, vt: Word, us: Word, ut: Word, s: Sys)
    requires Agree(i.op, vs, vt, us, ut) && !IsRegister(i.op) && !IsLoad(i.op) && !IsStore(i.op)
    ensures ExecControl(i, us, ut, s) == ExecControl(i, vs, vt, s)
  {
    hide ExecBranch, Transfer, ExecTrap, ExecAbsent, Raise, IsRegister, IsAbsent;
    if IsBranch(i.op) { BranchIgnores(i, vs, vt, ut, s); }
    else if IsTransfer(i.op) { TransferIgnores(i, vs, us, s); }
    else if IsTrap(i.op) { TrapIgnores(i, vs, vt, us, ut, s); }
  }

  lemma ExecIgnores(i: Inst, vs: Word, vt: Word, us: Word, ut: Word, s: Sys)
    requires Agree(i.op, vs, vt, us, ut)
    ensures Exec(i, us, ut, s) == Exec(i, vs, vt, s)
  {
    hide ExecRegister, ExecControl, LoadAccess, ExecStore, ReadsRt, ReadsRs, IsRegister, IsLoad, IsStore;
    if IsRegister(i.op) { RegisterIgnores(i, vs, vt, us, ut, s); }
    else if IsLoad(i.op) { LoadReads(i.op); LoadIgnores(i, Wrap(vs + i.imm), vt, ut, s); }
    else if IsStore(i.op) { StoreReads(i.op); }
    else { ControlIgnores(i, vs, vt, us, ut, s); }
  }

  lemma LoadReads(op: Op)
    requires IsLoad(op)
    ensures ReadsRs(op)
  {
  }

  lemma StoreReads(op: Op)
    requires IsStore(op)
    ensures ReadsRs(op) && ReadsRt(op)
  {
  }

  // ---------- One instruction ----------

  /** The registers that an executed instruction read. A system call reads $2 and $4. */
  predicate Reads(i: Inst, g: Reg) {
    if i.op.SYSCALL? then g == 2 || g == 4 else (ReadsRs(i.op) && i.rs == g) || (ReadsRt(i.op) && i.rt == g)
  }

  /** The registers that it wrote, at once or by a load. */
  predicate Writes(i: Inst, o: Outcome, g: Reg) {
    if i.op.SYSCALL? then g == 2
    else o.Done? && ((o.wr.Some? && o.wr.value.reg == g) || (o.ld.Some? && o.ld.value.reg == g))
  }

  /** An instruction that neither reads nor writes the register of a load, unless that is $0. */
  predicate Clear(i: Inst, r: Bank, s: Sys, ld: Option<RegWrite>) {
    ld.Some? && ld.value.reg != 0 ==>
      !Reads(i, ld.value.reg) && !Writes(i, Exec(i, r[i.rs], r[i.rt], s), ld.value.reg)
  }

  /** An instruction that does not read $0 while a load to $0 is delivered. */
  predicate ZeroUnread(i: Inst, ld: Option<RegWrite>) { ld.Some? && ld.value.reg == 0 ==> !Reads(i, 0) }

  /** The registers with a pending load put on top. */
  predicate Over(r: Bank, d: Bank, ld: Option<RegWrite>) { forall k: Reg | k != 0 :: r[k] == Apply(d, ld)[k] }

  /** Executing with and without the pending load. */
  lemma ExecutesAlike(i: Inst, r: Bank, d: Bank, s: Sys, ld: Option<RegWrite>)
    requires r[0] == 0 && (d[0] == 0 || !Reads(i, 0)) && Over(r, d, ld) && Clear(i, r, s, ld) && !i.op.SYSCALL?
    ensures Exec(i, d[i.rs], d[i.rt], s) == Exec(i, r[i.rs], r[i.rt], s)
  {
    hide Exec, ReadsRs, ReadsRt;
    ExecIgnores(i, r[i.rs], r[i.rt], d[i.rs], d[i.rt], s);
  }

  /** The results, with the pending load still on top of one. */
  predicate Corresponds(e: Executed, x: Executed, ld: Option<RegWrite>) {
    match e
    case Failed => x.Failed?
    case Exited(r, s) => x.Exited? && x.sys == s && Over(r, x.r, ld)
    case Ran(r, l, s) => x.Ran? && x.sys == s && x.ld == l && Over(r, x.r, ld)
  }

  lemma CompletesAlike(i: Inst, o: Outcome, r: Bank, d: Bank, ld: Option<RegWrite>)
    requires Over(r, d, ld) && !i.op.SYSCALL? && (ld.Some? && ld.value.reg != 0 ==> !Writes(i, o, ld.value.reg))
    ensures Corresponds(Complete(o, r), Complete(o, d), ld)
  {
    hide Finish;
  }

  lemma CallsAlike(r: Bank, d: Bank, s: Sys, ld: Option<RegWrite>)
    requires Over(r, d, ld) && (ld.Some? ==> ld.value.reg != 2 && ld.value.reg != 4)
    ensures Corresponds(Syscall(r, s), Syscall(d, s), ld)
    ensures Syscall(r, s).Ran? ==> Syscall(r, s).ld.None?
  {
    hide Finish, GrowData;
    assert r[2] == d[2] && r[4] == d[4];
  }

  lemma InstructionAlike(i: Inst, r: Bank, d: Bank, s: Sys, ld: Option<RegWrite>)
    requires r[0] == 0 && (d[0] == 0 || !Reads(i, 0)) && Over(r, d, ld) && Clear(i, r, s, ld)
    ensures Corresponds(Execute(i, r, s), Execute(i, d, s), ld)
  {
    hide Exec, Syscall, Complete, Corresponds, ReadsRs, ReadsRt, Over;
    if i.op.SYSCALL? {
      CallsAlike(r, d, s, ld);
    } else {
      ExecutesAlike(i, r, d, s, ld);
      CompletesAlike(i, Exec(i, r[i.rs], r[i.rt], s), r, d, ld);
    }
  }

  // ---------- Runs ----------

  function RunNow(st: State, n: nat): Result
    decreases n
  {
    if n == 0 then Next(st)
    else
      match Step(st)
      case Aborted => Aborted
      case Stopped(t) => Stopped(t)
      case Next(t) => RunNow(t, n - 1)
  }

  function RunLate(d: Delayed, n: nat): DelayedResult
    decreases n
  {
    if n == 0 then DNext(d)
    else
      match DelayedStep(d)
      case DAborted => DAborted
      case DStopped(x) => DStopped(x)
      case DNext(x) => RunLate(x, n - 1)
  }

  /** Putting the pending loads, at most two, on top gives the registers of the other machine; all
      else is the same. */
  predicate Simulates(d: Delayed, st: State) {
    d.st.sys == st.sys && Over(st.r, Apply(d.st.r, d.older), d.newer)
  }

  predicate Matches(d: DelayedResult, r: Result) {
    match r
    case Aborted => d.DAborted?
    case Stopped(t) => d.DStopped? && Simulates(d.d, t)
    case Next(t) => d.DNext? && Simulates(d.d, t)
  }

  /** Within n steps, no instruction touches what the one before it loads, and none reads $0 while a
      load to $0 is delivered: the loads of the two instructions before are `newer` and `older`. */
  predicate Spaced(st: State, newer: Option<RegWrite>, older: Option<RegWrite>, n: nat)
    decreases n
  {
    n > 0 ==>
      match Issue(st)
      case Bad => true
      case Faulted(t) => Spaced(t, newer, older, n - 1)
      case Ready(i, r, s) =>
        Clear(i, r, s, newer) && ZeroUnread(i, older) &&
        match Execute(i, r, s)
        case Failed => true
        case Exited(_, _) => true
        case Ran(r', ld, s') => Spaced(State(Apply(r', ld), s'), ld, newer, n - 1)
  }

  /** Fetching does not look at the registers. */
  lemma IssuesAlike(d: State, st: State)
    requires d.sys == st.sys
    ensures Issue(d).Bad? == Issue(st).Bad?
    ensures Issue(st).Faulted? ==>
            && Issue(d).Faulted? && Issue(d).st == State(d.r[0 := 0], Issue(st).st.sys)
            && Issue(st).st.r == st.r[0 := 0]
    ensures Issue(st).Ready? ==>
            && Issue(d) == Ready(Issue(st).i, d.r[0 := 0], Issue(st).sys)
            && Issue(st).r == st.r[0 := 0]
  {
    hide Fetch, Handle, Undefined;
  }

  lemma OverZeroed(r: Bank, d: Bank, older: Option<RegWrite>, newer: Option<RegWrite>)
    requires Over(r, Apply(d, older), newer)
    ensures Over(r[0 := 0], Apply(d[0 := 0], older), newer)
  {
  }

  lemma ZeroUnless(d: Bank, ld: Option<RegWrite>)
    requires d[0] == 0
    ensures Apply(d, ld)[0] == 0 || (ld.Some? && ld.value.reg == 0)
  {
  }

  /** A new load on both sides; on one of them the older load is still on top as well. */
  lemma OverBoth(r: Bank, d: Bank, newer: Option<RegWrite>, ld: Option<RegWrite>)
    requires Over(r, d, newer)
    ensures Over(Apply(r, ld), Apply(d, newer), ld)
  {
  }

  lemma ReadySimulates(d: Delayed, e: Executed, x: Executed)
    requires Corresponds(e, x, d.newer)
    ensures Matches(Postpone(x, d.newer), Deliver(e))
  {
    hide Over, Apply;
    if e.Ran? {
      OverBoth(e.r, x.r, d.newer, e.ld);
    } else if e.Exited? {
      NothingOlder(e.r, x.r, d.newer);
    }
  }

  lemma NothingOlder(r: Bank, d: Bank, ld: Option<RegWrite>)
    requires Over(r, d, ld)
    ensures Over(r, Apply(d, ld), None)
  {
  }

  /** One step of the one machine is one step of the other. */
  lemma StepSimulates(d: Delayed, st: State)
    requires Simulates(d, st) && Spaced(st, d.newer, d.older, 1)
    ensures Matches(DelayedStep(d), Step(st))
  {
    hide Issue, Execute, Clear, Reads, Over, Corresponds, Apply;
    IssuesAlike(d.st, st);
    OverZeroed(st.r, d.st.r, d.older, d.newer);
    match Issue(st)
    case Bad =>
    case Faulted(t) =>
    case Ready(i, r, s) =>
      var dr := Apply(d.st.r[0 := 0], d.older);
      ZeroUnless(d.st.r[0 := 0], d.older);
      InstructionAlike(i, r, dr, s, d.newer);
      ReadySimulates(d, Execute(i, r, s), Execute(i, dr, s));
  }

  lemma SpacedStep(st: State, newer: Option<RegWrite>, older: Option<RegWrite>, n: nat)
    requires n > 0 && Spaced(st, newer, older, n)
    ensures Spaced(st, newer, older, 1)
  {
    hide Issue, Execute, Clear;
  }

  /** The load that the next step of d leaves pending. */
  function NewLoad(st: State, last: Option<RegWrite>): Option<RegWrite> {
    match Issue(st)
    case Bad => last
    case Faulted(_) => last
    case Ready(i, r, s) => match Execute(i, r, s) case Failed => last case Exited(_, _) => last case Ran(_, ld, _) => ld
  }

  /** And the one that then is the older. */
  function OldLoad(st: State, newer: Option<RegWrite>, older: Option<RegWrite>): Option<RegWrite> {
    if Issue(st).Ready? then newer else older
  }

  lemma SpacedRest(st: State, newer: Option<RegWrite>, older: Option<RegWrite>, n: nat)
    requires n > 0 && Spaced(st, newer, older, n) && Step(st).Next?
    ensures Spaced(Step(st).st, NewLoad(st, newer), OldLoad(st, newer, older), n - 1)
  {
    hide Issue, Execute, Clear, Apply;
  }

  lemma NewerIs(d: Delayed, st: State)
    requires Simulates(d, st) && Spaced(st, d.newer, d.older, 1) && Step(st).Next? && DelayedStep(d).DNext?
    ensures DelayedStep(d).d.newer == NewLoad(st, d.newer)
    ensures DelayedStep(d).d.older == OldLoad(st, d.newer, d.older)
  {
    hide Issue, Execute, Clear, Reads, Over, Corresponds, Apply;
    IssuesAlike(d.st, st);
    if Issue(st).Ready? {
      var i, r, s := Issue(st).i, Issue(st).r, Issue(st).sys;
      OverZeroed(st.r, d.st.r, d.older, d.newer);
      var dr := Apply(d.st.r[0 := 0], d.older);
      ZeroUnless(d.st.r[0 := 0], d.older);
      InstructionAlike(i, r, dr, s, d.newer);
      SameLoad(Execute(i, r, s), Execute(i, dr, s), d.newer);
    }
  }

  lemma SameLoad(e: Executed, x: Executed, ld: Option<RegWrite>)
    requires Corresponds(e, x, ld) && e.Ran?
    ensures x.Ran? && x.ld == e.ld
  {
  }

  /** Over any spaced run, faults and system calls included, the delayed machine is the other one
      with its pending loads put on top. */
  lemma {:induction false} RunSimulates(d: Delayed, st: State, n: nat)
    requires Simulates(d, st) && Spaced(st, d.newer, d.older, n)
    ensures Matches(RunLate(d, n), RunNow(st, n))
    decreases n
  {
    hide Simulates, Step, DelayedStep, NewLoad, OldLoad, Spaced;
    if n > 0 {
      SpacedStep(st, d.newer, d.older, n);
      StepSimulates(d, st);
      if Step(st).Next? {
        SpacedRest(st, d.newer, d.older, n);
        NewerIs(d, st);
        RunSimulates(DelayedStep(d).d, Step(st).st, n - 1);
      }
    }
  }

  /** From a start with nothing pending. */
  lemma DelayedLoadsSimulate(st: State, n: nat)
    requires Spaced(st, None, None, n)
    ensures Matches(RunLate(Delayed(st, None, None), n), RunNow(st, n))
  {
    hide RunLate, RunNow, Matches, Spaced;
    RunSimulates(Delayed(st, None, None), st, n);
  }

  // ---------- Every load is delivered once, in order ----------

  function Opt(ld: Option<RegWrite>): seq<RegWrite> { if ld.Some? then [ld.value] else [] }

  /** The pending loads, the oldest first. */
  function Pending(d: Delayed): seq<RegWrite> { Opt(d.older) + Opt(d.newer) }

  /** The loads that the next step writes to their registers, and those that it issues. */
  function Commits(d: Delayed): seq<RegWrite> { if Issue(d.st).Ready? then Opt(d.older) else [] }

  function Loads(d: Delayed): seq<RegWrite> {
    match Issue(d.st)
    case Bad => []
    case Faulted(_) => []
    case Ready(i, r, s) =>
      match Execute(i, Apply(r, d.older), s) case Failed => [] case Exited(_, _) => [] case Ran(_, ld, _) => Opt(ld)
  }

  function AllCommits(d: Delayed, n: nat): seq<RegWrite>
    decreases n
  {
    if n == 0 then [] else Commits(d) + if DelayedStep(d).DNext? then AllCommits(DelayedStep(d).d, n - 1) else []
  }

  function AllLoads(d: Delayed, n: nat): seq<RegWrite>
    decreases n
  {
    if n == 0 then [] else Loads(d) + if DelayedStep(d).DNext? then AllLoads(DelayedStep(d).d, n - 1) else []
  }

  lemma StepConserves(d: Delayed)
    requires !DelayedStep(d).DAborted?
    ensures Pending(d) + Loads(d) == Commits(d) + Pending(DelayedStep(d).d)
  {
    hide Issue, Execute, Apply;
  }

  /** In every run, spaced or not: the loads pending and issued are those committed and still
      pending, in the same order, none lost and none twice. */
  lemma {:induction false} RunConserves(d: Delayed, n: nat)
    requires !RunLate(d, n).DAborted?
    ensures Pending(d) + AllLoads(d, n) == AllCommits(d, n) + Pending(RunLate(d, n).d)
    decreases n
  {
    hide DelayedStep, Loads, Commits, Pending;
    if n > 0 {
      var next := DelayedStep(d).d;
      StepConserves(d);
      if DelayedStep(d).DNext? {
        RunConserves(next, n - 1);
        Regroup(Pending(d), Loads(d), Commits(d), Pending(next), AllLoads(next, n - 1), AllCommits(next, n - 1),
                Pending(RunLate(d, n).d));
      } else {
        assert Loads(d) + [] == Loads(d) && Commits(d) + [] == Commits(d);
      }
    }
  }

  lemma Regroup(p: seq<RegWrite>, l: seq<RegWrite>, c: seq<RegWrite>, q: seq<RegWrite>, ls: seq<RegWrite>,
      cs: seq<RegWrite>,
                f: seq<RegWrite>)
    requires p + l == c + q && q + ls == cs + f
    ensures p + (l + ls) == c + cs + f
  {
    assert p + (l + ls) == p + l + ls;
    assert c + q + ls == c + (q + ls);
    assert c + cs + f == c + (cs + f);
  }

  // ---------- How late a load is ----------

  /** ADDU rd, g, $0: a copy of register g. */
  predicate Copies(i: Inst, g: Reg) { i.op.ADDU? && i.rs == g && i.rt == 0 && i.rd != 0 && i.rd != g }

  lemma CopyExecutes(i: Inst, g: Reg, r: Bank, s: Sys)
    requires Copies(i, g) && r[0] == 0
    ensures Execute(i, r, s) == Ran(r[i.rd := r[g]], None, Finish(s))
  {
    hide Finish;
  }

  /** Of two copies behind a load the first one gets the register as it was, and the second one gets
      what was loaded. */
  lemma LoadIsLate(d: Delayed, i: Inst, r: Bank, s: Sys, r1: Bank, ld: RegWrite, s1: Sys,
                   d1: Delayed, j: Inst, d2: Delayed, k: Inst, d3: Delayed)
    requires Issue(d.st) == Ready(i, r, s) && d.newer.None? && ld.reg != 0
    requires Execute(i, Apply(r, d.older), s) == Ran(r1, Some(ld), s1) && DelayedStep(d) == DNext(d1)
    requires Issue(d1.st) == Ready(j, r1[0 := 0], d1.st.sys) && Copies(j, ld.reg) && DelayedStep(d1) == DNext(d2)
    requires Issue(d2.st) == Ready(k, d2.st.r[0 := 0], d2.st.sys) && Copies(k, ld.reg) && DelayedStep(d2) == DNext(d3)
    ensures d2.st.r[j.rd] == r1[ld.reg] && d3.st.r[k.rd] == ld.value
  {
    hide Issue, Execute, Copies;
    CopyExecutes(j, ld.reg, r1[0 := 0], d1.st.sys);
    CopyExecutes(k, ld.reg, Apply(d2.st.r[0 := 0], Some(ld)), d2.st.sys);
  }

  // ---------- Why nothing may read $0 while a load to it is delivered ----------

  /** $0 then reads as the loaded value: the immediate machine adds $0 to itself and gets 0, the
      delayed one gets twice that value. */
  lemma ZeroLoadShows(i: Inst, r: Bank, s: Sys, v: Word)
    requires i.op.ADDU? && i.rs == 0 && i.rt == 0 && r[0] == 0 && 0 < v < 0x8000_0000
    ensures Exec(i, r[i.rs], r[i.rt], s) == Write(i.rd, 0, s)
    ensures var d := Apply(r, Some(RegWrite(0, v))); Exec(i, d[i.rs], d[i.rt], s) == Write(i.rd, 2 * v, s) != Write(i.rd, 0, s)
  {
  }
}
