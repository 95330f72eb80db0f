/** The exception state: once the EXL bit is set, and as long as the cause word has nothing above its
    exception code, no further exception moves EPC, until ERET goes back there. */
module Exceptions {
  import opened Word
  import opened Instruction
  import opened Isa
  import opened DelayedLoads

  /** Inside the handler of the exception at epc: the cause word has nothing but an exception code,
      no pending-interrupt bits and no branch-delay bit. */
  predicate InHandler(s: Sys, epc: Word) {
    Exl(s.cp0[STATUS]) && s.cp0[EPC] == epc && s.cp0[CAUSE] < 0x80 && (s.exc ==> s.cp0[CAUSE] < 0x7c)
  }

  /** The exceptions that the simulator raises. */
  predicate IsCode(code: Reg) { 4 <= code <= LAST_REAL_EXCEPT }

  // ---------- Exceptions ----------

  lemma CodeSet(cause: Word, code: Reg)
    ensures SetCode(cause, code) / 4 % 32 == code && SetCode(cause, code) / 0x80 == cause / 0x80
    ensures SetCode(cause, code) % 4 == cause % 4
  {
    CauseParts(cause);
    var x := SetCode(cause, code);
    ModUnique(x, 4, cause / 0x80 * 32 + code, cause % 4);
    ModUnique(x, 0x80, cause / 0x80, code * 4 + cause % 4);
    ModUnique(x / 4, 32, cause / 0x80, code);
  }

  lemma CauseParts(cause: Word)
    ensures cause == cause / 0x80 * 0x80 + cause / 4 % 32 * 4 + cause % 4
  {
    var q := cause / 4;
    ModUnique(cause, 0x80, q / 32, q % 32 * 4 + cause % 4);
  }

  /** An exception with EXL set keeps EPC exactly when the cause word has no bit set above its
      exception code: no pending interrupt, and no branch delay. Otherwise EPC moves to it. */
  lemma SecondException(s: Sys, code: Reg)
    requires Exl(s.cp0[STATUS]) && IsCode(code) && !s.exc
    ensures var t := Finish(Raise(s, code));
            && Exl(t.cp0[STATUS]) && t.pc == 0x8000_0180 && !t.exc && t.cp0[CAUSE] / 4 % 32 == code
            && t.cp0[EPC] == if s.cp0[CAUSE] < 0x80 then s.cp0[EPC] else s.pc
  {
    CodeSet(s.cp0[CAUSE], code);
  }

  /** MTC0 of 0x80000000 into the cause word keeps the branch-delay bit. */
  lemma BranchDelayKept(s: Sys)
    ensures MoveToCp0(s, CAUSE, 0x8000_0000) == s.(cp0 := s.cp0[CAUSE := 0x8000_0000])
  {
    TopBitKept();
  }

  lemma TopBitKept()
    ensures AndW(0x8000_0000, 0x8000_ff7c) == 0x8000_0000
  {
    PowersOfTwo();
    AndOfHalves(1, 1, 0, 0, 1, 1);
    AndSplit(1, 1, 0, 0xff7c, 31, 1);
    ShlIsMul(1, 31);
    AndZero(0xff7c);
    AndWIs(0x8000_0000, 0x8000_ff7c);
  }

  /** In a handler, that MTC0 and then a trap move EPC to the trap. */
  lemma BranchDelayMovesEpc(s: Sys, i: Inst, j: Inst, v: Word)
    requires Exl(s.cp0[STATUS]) && !s.exc
    requires i.op.MTC0? && i.rd == CAUSE && j.op.TEQ?
    ensures var t := Finish(s.(cp0 := s.cp0[CAUSE := 0x8000_0000]));
            && Exec(i, v, 0x8000_0000, s) == Quiet(s.(cp0 := s.cp0[CAUSE := 0x8000_0000]))
            && Exec(j, 0, 0, t) == Quiet(Raise(t, EXC_TR))
            && Finish(Raise(t, EXC_TR)).cp0[EPC] == Wrap(s.pc + 4)
  {
    hide SetCode, MoveToCp0, Exl, ExecStore, LoadAccess, Compute;
    BranchDelayKept(s);
    SecondException(Finish(s.(cp0 := s.cp0[CAUSE := 0x8000_0000])), EXC_TR);
  }

  lemma RaiseStays(s: Sys, code: Reg, epc: Word)
    requires InHandler(s, epc) && IsCode(code)
    ensures InHandler(Raise(s, code), epc)
  {
    CodeSet(s.cp0[CAUSE], code);
  }

  lemma FaultStays(s: Sys, code: Reg, a: Word, epc: Word)
    requires InHandler(s, epc) && IsCode(code)
    ensures InHandler(Fault(s, code, a), epc)
  {
    hide Raise;
    RaiseStays(s, code, epc);
  }

  /** Outside the handler, the first exception records its place and code and sets EXL, whatever
      else is in the cause word. With nothing else there, a handler's state is entered. */
  lemma FirstException(s: Sys, code: Reg)
    requires !Exl(s.cp0[STATUS]) && IsCode(code) && !s.exc
    ensures var t := Finish(Raise(s, code));
            && Exl(t.cp0[STATUS]) && t.pc == 0x8000_0180 && !t.exc && t.cp0[CAUSE] / 4 % 32 == code
            && t.cp0[EPC] == (if s.cp0[CAUSE] < 0x80 then s.pc - s.pc % 4 else s.pc)
            && (s.cp0[CAUSE] < 0x80 ==> InHandler(t, s.pc - s.pc % 4))
  {
    CodeSet(s.cp0[CAUSE], code);
    assert Exl(s.cp0[STATUS] + 2);
  }

  lemma FinishStays(s: Sys, epc: Word)
    requires InHandler(s, epc)
    ensures InHandler(Finish(s), epc)
  {
  }

  // ---------- Instructions ----------

  predicate Stays(o: Outcome, epc: Word) {
    match o
    case Abort => true
    case Return(t) => InHandler(t, epc)
    case Done(_, _, t) => InHandler(t, epc)
  }

  lemma MoveStays(i: Inst, vs: Word, vt: Word, s: Sys, epc: Word)
    requires InHandler(s, epc) && IsMove(i.op) && !i.op.MTC0?
    ensures Stays(Move(i, vs, vt, s), epc)
  {
    hide LeadingRun;
  }

  lemma RegisterStays(i: Inst, vs: Word, vt: Word, s: Sys, epc: Word)
    requires InHandler(s, epc) && IsRegister(i.op) && !i.op.MTC0?
    ensures Stays(ExecRegister(i, vs, vt, s), epc)
  {
    hide IsCompute, IsSum, IsShift, IsMove, IsMultiply, Compute, Shifted, ExactSum, Move, Raise, TruncDiv, TruncMod,
      HiLo;
    if IsSum(i.op) { RaiseStays(s, EXC_OV, epc); }
    else if IsMove(i.op) { MoveStays(i, vs, vt, s, epc); }
    else if IsMultiply(i.op) { MultiplyStays(i.op, vs, vt, s, epc); }
  }

  lemma MultiplyStays(op: Op, vs: Word, vt: Word, s: Sys, epc: Word)
    requires InHandler(s, epc) && IsMultiply(op)
    ensures InHandler(Multiply(op, vs, vt, s), epc)
  {
    hide HiLo;
  }

  lemma ReadStays(s: Sys, a: Word, z: Size, epc: Word)
    requires InHandler(s, epc)
    ensures ReadMem(s, a, z).Read? ==> InHandler(ReadMem(s, a, z).sys, epc)
  {
    hide Fault, LoadBytes, SignExtend, Field, GrowStack, Mapped, InText, InGrowthZone;
    FaultStays(s, EXC_ADEL, a, epc);
    FaultStays(s, EXC_DBE, a, epc);
  }

  lemma WriteStays(s: Sys, a: Word, z: Size, v: Word, epc: Word)
    requires InHandler(s, epc)
    ensures WriteMem(s, a, z, v).Some? ==> InHandler(WriteMem(s, a, z, v).value, epc)
  {
    hide Fault, StoreBytes, SetField, GrowStack, Mapped, InText, InGrowthZone;
    FaultStays(s, EXC_ADES, a, epc);
    FaultStays(s, EXC_DBE, a, epc);
  }

  lemma StoreStays(op: Op, ea: Word, vt: Word, s: Sys, epc: Word)
    requires InHandler(s, epc)
    ensures ExecStore(op, ea, vt, s).Some? ==> InHandler(ExecStore(op, ea, vt, s).value, epc)
  {
    hide ReadMem, WriteMem, Isa.StoreLeft, Isa.StoreRight, IsUnaligned;
    if IsUnaligned(op) {
      ReadStays(s, ea - ea % 4, Word4, epc);
      match ReadMem(s, ea - ea % 4, Word4)
      case NoRead =>
      case Read(v, t) =>
        WriteStays(t, ea - ea % 4, Word4, if op.SWL? then Isa.StoreLeft(v, vt, ea % 4) else Isa.StoreRight(v, vt, ea % 4), epc);
    } else {
      WriteStays(s, ea, SizeOf(op), vt, epc);
    }
  }

  lemma LoadStays(op: Op, ea: Word, rt: Reg, vt: Word, s: Sys, epc: Word)
    requires InHandler(s, epc)
    ensures Stays(LoadAccess(op, ea, rt, vt, s), epc)
  {
    hide ReadMem, LoadResult, Isa.AddressOf;
    ReadStays(s, Isa.AddressOf(op, ea), SizeOf(op), epc);
  }

  lemma ControlStays(i: Inst, vs: Word, vt: Word, s: Sys, epc: Word)
    requires InHandler(s, epc) && !i.op.ERET?
    ensures Stays(ExecControl(i, vs, vt, s), epc)
  {
    hide IsBranch, IsTransfer, IsTrap, IsAbsent, Raise, Traps, Taken, Links, IsLikely, JumpAddress, Idisp;
    RaiseStays(s, EXC_TR, epc);
    RaiseStays(s, EXC_RI, epc);
    RaiseStays(s, EXC_CPU, epc);
    RaiseStays(s, EXC_BP, epc);
    if IsTransfer(i.op) && !IsBranch(i.op) { TransferStays(i, vs, s, epc); }
    else if IsAbsent(i.op) && !IsTrap(i.op) && !IsBranch(i.op) { AbsentStays(i.op, s, epc); }
  }

  lemma TransferStays(i: Inst, vs: Word, s: Sys, epc: Word)
    requires InHandler(s, epc) && IsTransfer(i.op) && !i.op.ERET?
    ensures Stays(Transfer(i, vs, s), epc)
  {
    hide JumpAddress;
  }

  lemma AbsentStays(op: Op, s: Sys, epc: Word)
    requires InHandler(s, epc) && IsAbsent(op)
    requires InHandler(Raise(s, EXC_RI), epc) && InHandler(Raise(s, EXC_CPU), epc)
    ensures InHandler(ExecAbsent(op, s), epc)
  {
    hide Raise, InHandler;
  }

  lemma ExecStays(i: Inst, vs: Word, vt: Word, s: Sys, epc: Word)
    requires InHandler(s, epc) && !i.op.ERET? && !i.op.MTC0?
    ensures Stays(Exec(i, vs, vt, s), epc)
  {
    hide ExecRegister, ExecControl, LoadAccess, ExecStore, IsRegister, IsLoad, IsStore, InHandler;
    if IsRegister(i.op) { RegisterStays(i, vs, vt, s, epc); }
    else if IsLoad(i.op) { LoadStays(i.op, Wrap(vs + i.imm), i.rt, vt, s, epc); }
    else if IsStore(i.op) { StoreStays(i.op, Wrap(vs + i.imm), vt, s, epc); }
    else { ControlStays(i, vs, vt, s, epc); }
  }

  // ---------- Runs ----------

  predicate ExecutedStays(e: Executed, epc: Word) {
    match e
    case Failed => true
    case Exited(_, s) => InHandler(s, epc)
    case Ran(_, _, s) => InHandler(s, epc)
  }

  lemma CompleteStays(o: Outcome, r: Bank, epc: Word)
    requires Stays(o, epc)
    ensures ExecutedStays(Complete(o, r), epc)
  {
    hide Finish, InHandler;
    if o.Done? { FinishStays(o.sys, epc); }
  }

  lemma SyscallStays(r: Bank, s: Sys, epc: Word)
    requires InHandler(s, epc)
    ensures ExecutedStays(Syscall(r, s), epc)
  {
    hide GrowData, Finish;
    match GrowData(s.mem, Signed(r[4]))
    case None =>
    case Some(m) => FinishStays(s.(mem := m), epc);
  }

  lemma ExecuteStays(i: Inst, r: Bank, s: Sys, epc: Word)
    requires InHandler(s, epc) && !i.op.ERET? && !i.op.MTC0?
    ensures ExecutedStays(Execute(i, r, s), epc)
  {
    hide Exec, Syscall, Complete, InHandler;
    if i.op.SYSCALL? {
      SyscallStays(r, s, epc);
    } else {
      ExecStays(i, r[i.rs], r[i.rt], s, epc);
      CompleteStays(Exec(i, r[i.rs], r[i.rt], s), r, epc);
    }
  }

  /** The next instruction, if there is one, is neither ERET nor MTC0. */
  predicate NoReturn(st: State) { Issue(st).Ready? ==> !Issue(st).i.op.ERET? && !Issue(st).i.op.MTC0? }

  predicate NoReturns(st: State, n: nat)
    decreases n
  {
    n > 0 ==> NoReturn(st) && (Step(st).Next? ==> NoReturns(Step(st).st, n - 1))
  }

  lemma IssueStays(st: State, epc: Word)
    requires InHandler(st.sys, epc)
    ensures Issue(st).Ready? ==> Issue(st).sys == st.sys && !st.sys.exc
    ensures Issue(st).Faulted? ==> InHandler(Issue(st).st.sys, epc)
  {
    hide Fault, InText, InKText, Undefined;
    FaultStays(st.sys, EXC_IBE, st.sys.pc, epc);
    FaultRaises(st.sys, EXC_IBE, st.sys.pc);
  }

  lemma FaultRaises(s: Sys, code: Reg, a: Word)
    ensures Fault(s, code, a).exc
  {
  }

  lemma StepStays(st: State, epc: Word)
    requires InHandler(st.sys, epc) && NoReturn(st)
    ensures Step(st).Next? ==> InHandler(Step(st).st.sys, epc)
  {
    hide Issue, Execute, InHandler, Apply;
    IssueStays(st, epc);
    if Issue(st).Ready? {
      ExecuteStays(Issue(st).i, Issue(st).r, Issue(st).sys, epc);
    }
  }

  /** Whatever further exceptions occur, EXL stays set and EPC stays put. */
  lemma {:induction false} HandlerKeepsEpc(st: State, epc: Word, n: nat)
    requires InHandler(st.sys, epc) && NoReturns(st, n) && RunNow(st, n).Next?
    ensures InHandler(RunNow(st, n).st.sys, epc)
    decreases n
  {
    hide Step, InHandler, NoReturn;
    if n > 0 {
      StepStays(st, epc);
      HandlerKeepsEpc(Step(st).st, epc, n - 1);
    }
  }

  // The machine with delayed loads.

  predicate LateNoReturns(d: Delayed, n: nat)
    decreases n
  {
    n > 0 ==> NoReturn(d.st) && (DelayedStep(d).DNext? ==> LateNoReturns(DelayedStep(d).d, n - 1))
  }

  lemma LateStepStays(d: Delayed, epc: Word)
    requires InHandler(d.st.sys, epc) && NoReturn(d.st)
    ensures DelayedStep(d).DNext? ==> InHandler(DelayedStep(d).d.st.sys, epc)
  {
    hide Issue, Execute, InHandler, Apply;
    IssueStays(d.st, epc);
    if Issue(d.st).Ready? {
      ExecuteStays(Issue(d.st).i, Apply(Issue(d.st).r, d.older), Issue(d.st).sys, epc);
    }
  }

  /** The same, whatever loads are pending. */
  lemma {:induction false} LateHandlerKeepsEpc(d: Delayed, epc: Word, n: nat)
    requires InHandler(d.st.sys, epc) && LateNoReturns(d, n) && RunLate(d, n).DNext?
    ensures InHandler(RunLate(d, n).d.st.sys, epc)
    decreases n
  {
    hide DelayedStep, InHandler, NoReturn;
    if n > 0 {
      LateStepStays(d, epc);
      LateHandlerKeepsEpc(DelayedStep(d).d, epc, n - 1);
    }
  }

  /** The machine as it resumes at epc: EXL is cleared, and nothing else has changed. */
  function Resumed(s: Sys, epc: Word): Sys {
    var status := s.cp0[STATUS];
    s.(cp0 := s.cp0[STATUS := if Exl(status) then status - 2 else status], pc := epc)
  }

  lemma EretGoesBack(i: Inst, r: Bank, s: Sys, epc: Word)
    requires InHandler(s, epc) && i.op.ERET? && !s.exc
    ensures Execute(i, r, s) == Ran(r, None, Resumed(s, epc)) && !Exl(Resumed(s, epc).cp0[STATUS])
  {
    hide IsRegister, IsLoad, IsStore, IsBranch, IsTrap, IsAbsent, ExecRegister, LoadAccess, ExecStore, ExecBranch;
    EretKind(i.op);
    assert Wrap(Wrap(epc - 4) + 4) == epc;
  }

  lemma EretKind(op: Op)
    requires op.ERET?
    ensures !IsRegister(op) && !IsLoad(op) && !IsStore(op) && !IsBranch(op) && IsTransfer(op)
  {
  }

  /** From inside a handler, after any number of steps and further exceptions, ERET resumes at the
      place of the first exception, with EXL clear. */
  lemma HandlerReturns(st: State, epc: Word, n: nat, t: State, i: Inst, r: Bank)
    requires InHandler(st.sys, epc) && NoReturns(st, n) && RunNow(st, n) == Next(t)
    requires Issue(t) == Ready(i, r, t.sys) && i.op.ERET?
    ensures Step(t) == Next(State(r, Resumed(t.sys, epc))) && !Exl(Resumed(t.sys, epc).cp0[STATUS])
  {
    hide Issue, Execute, InHandler, Exl, RunNow, NoReturns, Resumed;
    HandlerKeepsEpc(st, epc, n);
    IssueStays(t, epc);
    EretGoesBack(i, r, t.sys, epc);
  }

  /** With delayed loads, ERET also delivers what is due. */
  lemma LateHandlerReturns(d: Delayed, epc: Word, n: nat, t: Delayed, i: Inst, r: Bank)
    requires InHandler(d.st.sys, epc) && LateNoReturns(d, n) && RunLate(d, n) == DNext(t)
    requires Issue(t.st) == Ready(i, r, t.st.sys) && i.op.ERET?
    ensures DelayedStep(t) == DNext(Delayed(State(Apply(r, t.older), Resumed(t.st.sys, epc)), None, t.newer))
    ensures !Exl(Resumed(t.st.sys, epc).cp0[STATUS])
  {
    hide Issue, Execute, InHandler, Exl, RunLate, LateNoReturns, Resumed, Apply;
    LateHandlerKeepsEpc(d, epc, n);
    IssueStays(t.st, epc);
    EretGoesBack(i, Apply(r, t.older), t.st.sys, epc);
  }
}
