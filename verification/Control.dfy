/** What branches, jumps, traps and moves do, told by the digits of their operands and by how they
    relate to each other. */
module Control {
  import opened Word
  import opened Instruction
  import opened Isa
  import opened Shifts
  import opened Arithmetic

  // ---------- Branches ----------

  /** When a branch is taken: bit 31 is the sign. */
  predicate Condition(op: Op, a: Word, b: Word) {
    if op in {BEQ, BEQL} then a == b
    else if op in {BNE, BNEL} then a != b
    else if op in {BGEZ, BGEZL, BGEZAL, BGEZALL} then !Bit(a, 31)
    else if op in {BLTZ, BLTZL, BLTZAL, BLTZALL} then Bit(a, 31)
    else if op in {BGTZ, BGTZL} then !Bit(a, 31) && a != 0
    else Bit(a, 31) || a == 0
  }

  /** The branches that skip the next instruction when they are not taken. */
  predicate Nullifies(op: Op) { op in {BEQL, BNEL, BGEZL, BLTZL, BGEZALL, BLTZALL, BGTZL, BLEZL} }

  /** The branches that leave the address of the next instruction in $31. */
  predicate SavesPc(op: Op) { op in {BGEZAL, BLTZAL, BGEZALL, BLTZALL} }

  lemma TakenWhen(op: Op, a: Word, b: Word)
    requires IsBranch(op)
    ensures Taken(op, a, b) == Condition(op, a, b)
  {
    hide Bit;
    SignDigit(a);
  }

  lemma KindsOfBranch(op: Op)
    requires IsBranch(op)
    ensures IsLikely(op) == Nullifies(op) && Links(op) == SavesPc(op)
  {
  }

  /** The word that a branch tests: it sees its own link. */
  function Seen(i: Inst, vs: Word, pc: Word): Word { if SavesPc(i.op) && i.rs == 31 then Wrap(pc + 4) else vs }

  /** Four times the field, whose digit 15 is extended if it is set. */
  predicate IsDisplacement(imm: Int16, d: int) {
    if 4 * imm % 0x1_0000 < 0x8000 then d == 4 * imm else -0x8000 <= d < 0 && (d - 4 * imm) % 0x1_0000 == 0
  }

  lemma DisplacementIs(imm: Int16)
    ensures IsDisplacement(imm, Idisp(imm))
  {
    var x := imm * 4;
    HighDigit(x);
    Extended(x, x / 0x1_0000);
  }

  lemma Extended(x: int, q: int)
    requires q == x / 0x1_0000
    ensures (x % 0x1_0000 - 0x1_0000 - x) % 0x1_0000 == 0
  {
    ModUnique(x % 0x1_0000 - 0x1_0000 - x, 0x1_0000, -q - 1, 0);
  }

  lemma HighDigit(x: int)
    ensures (x / 0x8000) % 2 == 1 <==> x % 0x1_0000 >= 0x8000
  {
    var q := x / 0x8000;
    ModUnique(x, 0x1_0000, q / 2, (q - q / 2 * 2) * 0x8000 + x % 0x8000);
  }

  function PcAfter(taken: bool, nullifies: bool, pc: Word, d: int): Word {
    if taken then Wrap(pc + d) else if nullifies then Wrap(pc + 8) else Wrap(pc + 4)
  }

  /** A branch changes the PC alone, and $31 if it links. */
  lemma Branches(i: Inst, vs: Word, vt: Word, s: Sys) returns (d: int, t: Sys)
    requires IsBranch(i.op) && !s.exc
    ensures IsDisplacement(i.imm, d) && d == Idisp(i.imm)
    ensures Exec(i, vs, vt, s) == Done(if SavesPc(i.op) then Some(RegWrite(31, Wrap(s.pc + 4))) else None, None, t)
    ensures Finish(t) == s.(pc := PcAfter(Condition(i.op, Seen(i, vs, s.pc), vt), Nullifies(i.op), s.pc, d))
  {
    hide Condition, Nullifies, SavesPc, Taken, IsLikely, Links, Idisp, IsDisplacement, IsLoad, IsStore, IsRegister;
    d := Idisp(i.imm);
    DisplacementIs(i.imm);
    KindsOfBranch(i.op);
    TakenWhen(i.op, Seen(i, vs, s.pc), vt);
    var taken := Condition(i.op, Seen(i, vs, s.pc), vt);
    t := Branch(s, taken, i.imm, Nullifies(i.op));
    OnlyBranch(i.op);
    BranchFinishes(s, taken, i.imm, Nullifies(i.op), d);
  }

  lemma OnlyBranch(op: Op)
    requires IsBranch(op)
    ensures !IsRegister(op) && !IsLoad(op) && !IsStore(op)
  {
  }

  lemma BranchFinishes(s: Sys, taken: bool, imm: Int16, likely: bool, d: int)
    requires !s.exc && d == Idisp(imm)
    ensures Finish(Branch(s, taken, imm, likely)) == s.(pc := PcAfter(taken, likely, s.pc, d))
  {
    hide Idisp;
    BackAndOn(Wrap(s.pc + d));
    BackAndOn(s.pc);
  }

  lemma BackAndOn(x: Word)
    ensures Wrap(Wrap(x - 4) + 4) == x && Wrap(Wrap(x + 4) + 4) == Wrap(x + 8)
  {
  }

  /** Of each pair, exactly one branch is taken. */
  predicate Opposite(op: Op, op': Op) {
    || (op.BEQ? && op'.BNE?) || (op.BEQL? && op'.BNEL?)
    || (op.BGEZ? && op'.BLTZ?) || (op.BGEZL? && op'.BLTZL?)
    || (op.BGEZAL? && op'.BLTZAL?) || (op.BGEZALL? && op'.BLTZALL?)
    || (op.BGTZ? && op'.BLEZ?) || (op.BGTZL? && op'.BLEZL?)
  }

  lemma OneIsTaken(op: Op, op': Op, a: Word, b: Word)
    requires Opposite(op, op')
    ensures Taken(op, a, b) <==> !Taken(op', a, b)
  {
    hide Bit, Taken, Condition, IsBranch;
    OppositesBranch(op, op', a, b);
    TakenWhen(op, a, b);
    TakenWhen(op', a, b);
  }

  lemma OppositesBranch(op: Op, op': Op, a: Word, b: Word)
    requires Opposite(op, op')
    ensures IsBranch(op) && IsBranch(op') && (Condition(op, a, b) <==> !Condition(op', a, b))
  {
    hide Bit;
  }

  /** Zero is neither above nor below zero, and a word is below zero exactly when its negation, other than
      itself, is above. */
  lemma AboutZero(a: Word, b: Word)
    ensures Taken(BGEZ, 0, b) && Taken(BLEZ, 0, b) && !Taken(BGTZ, 0, b) && !Taken(BLTZ, 0, b)
    ensures a != 0x8000_0000 ==> (Taken(BLTZ, a, b) <==> Taken(BGTZ, Wrap(0 - a), b))
    ensures Taken(BGTZ, a, b) <==> Taken(BGEZ, a, b) && Taken(BNE, a, 0)
  {
  }

  // ---------- Jumps ----------

  /** J and JAL: the word with this index in the region of the PC. */
  function InRegion(pc: Word, index: Word): int { pc / 0x1000_0000 * 0x1000_0000 + 4 * index }

  lemma RegionAddress(pc: Word, index: Word)
    requires index < 0x400_0000
    ensures JumpAddress(pc, index) == InRegion(pc, index)
  {
    var region := pc / 0x1000_0000;
    PowersOfTwo();
    assert Pow2(28) == 0x1000_0000;
    assert ShiftLeft(index, 2) == 4 * index;
    OrJoins(region, 4 * index, 28, 0x1000_0000);
  }

  /** Where a jump goes, and which register gets the address of the next instruction. */
  lemma Jumps(i: Inst, vs: Word, vt: Word, s: Sys) returns (t: Sys)
    requires i.op in {J, JAL, JR, JALR} && !s.exc && i.target < 0x400_0000
    ensures Exec(i, vs, vt, s) ==
            Done(if i.op.JAL? then Some(RegWrite(31, Wrap(s.pc + 4)))
                 else if i.op.JALR? then Some(RegWrite(i.rd, Wrap(s.pc + 4))) else None, None, t)
    ensures Finish(t) == s.(pc := if i.op.J? || i.op.JAL? then InRegion(s.pc, i.target) else vs)
  {
    hide JumpAddress, InRegion, IsLoad, IsStore, IsRegister, IsBranch, IsTransfer;
    JumpOnly(i.op);
    RegionAddress(s.pc, i.target);
    var v: Word := if i.op.J? || i.op.JAL? then JumpAddress(s.pc, i.target) else vs;
    t := JumpTo(s, v);
    BackAndOn(v);
  }

  lemma JumpOnly(op: Op)
    requires op in {J, JAL, JR, JALR}
    ensures !IsRegister(op) && !IsLoad(op) && !IsStore(op) && !IsBranch(op) && IsTransfer(op)
  {
  }

  /** JR $31 after JAL comes back behind the JAL, wherever the call went. */
  lemma CallReturns(i: Inst, j: Inst, v: Word, r: Bank, s: Sys, u: Sys)
    requires i.op.JAL? && i.target < 0x400_0000 && j.op.JR? && j.rs == 31 && !s.exc && !u.exc
    ensures var e := Execute(i, r, s);
            e.Ran? && e.sys.pc == InRegion(s.pc, i.target) &&
            Execute(j, e.r, u) == Ran(e.r, None, u.(pc := Wrap(s.pc + 4)))
  {
    hide Exec, InRegion;
    var t := Jumps(i, r[i.rs], r[i.rt], s);
    var r' := r[31 := Wrap(s.pc + 4)];
    assert Execute(i, r, s) == Ran(r', None, Finish(t));
    var x := Jumps(j.(target := 0), r'[31], r'[j.rt], u);
    JumpRegister(j, r'[31], r'[j.rt], u);
  }

  lemma JumpRegister(j: Inst, vs: Word, vt: Word, u: Sys)
    requires j.op.JR?
    ensures Exec(j, vs, vt, u) == Exec(j.(target := 0), vs, vt, u)
  {
  }

  // ---------- Traps ----------

  /** When a trap is raised, b being its second operand. */
  predicate TrapCondition(op: Op, a: Word, b: Word) {
    if op.TEQ? || op.TEQI? then a == b
    else if op.TNE? || op.TNEI? then a != b
    else if op.TLT? || op.TLTI? then Signed(a) < Signed(b)
    else if op.TLTU? || op.TLTIU? then a < b
    else if op.TGE? || op.TGEI? then Signed(a) >= Signed(b)
    else a >= b
  }

  predicate TrapsImmediate(op: Op) { op in {TEQI, TNEI, TLTI, TLTIU, TGEI, TGEIU} }

  /** A trap raises exception 13 or does nothing; immediates are extended with their sign, for unsigned
      comparisons too. */
  lemma ExecTraps(i: Inst, vs: Word, vt: Word, s: Sys) returns (b: Word)
    requires IsTrap(i.op)
    ensures if TrapsImmediate(i.op) then Signed(b) == i.imm else b == vt
    ensures Exec(i, vs, vt, s) == Done(None, None, if TrapCondition(i.op, vs, b) then Raise(s, 13) else s)
  {
    hide Raise, Traps, TrapCondition, IsTrap, TrapsImmediate, IsBranch, IsTransfer, IsLoad, IsStore, IsRegister;
    TrapOnly(i.op);
    b := if TrapsImmediate(i.op) then Wrap(i.imm) else vt;
    TrapsWhen(i, vs, vt, b);
  }

  lemma TrapOnly(op: Op)
    requires IsTrap(op)
    ensures !IsRegister(op) && !IsLoad(op) && !IsStore(op) && !IsBranch(op) && !IsTransfer(op)
  {
  }

  lemma TrapsWhen(i: Inst, vs: Word, vt: Word, b: Word)
    requires IsTrap(i.op) && b == if TrapsImmediate(i.op) then Wrap(i.imm) else vt
    ensures Traps(i, vs, vt) == TrapCondition(i.op, vs, b)
    ensures TrapsImmediate(i.op) ==> Signed(b) == i.imm
  {
    if Signed(vs) == Signed(b) { SignedApart(vs, b); }
  }

  /** A trap on "less than" is raised exactly when the comparison with the same name writes 1. */
  lemma TrapsAsCompared(i: Inst, j: Inst, a: Word, b: Word, s: Sys)
    requires (i.op.TLT? && j.op.SLT?) || (i.op.TLTU? && j.op.SLTU?)
    ensures Exec(i, a, b, s) == Done(None, None, if Writes(j, a, b, s, 1) then Raise(s, 13) else s)
  {
    hide Exec, Raise, Writes;
    var c := ExecTraps(i, a, b, s);
    OrderMeant(j, a, b, s);
  }

  /** Of each pair of traps exactly one is raised, on any operands. */
  predicate OppositeTraps(op: Op, op': Op) {
    || (op.TEQ? && op'.TNE?) || (op.TEQI? && op'.TNEI?) || (op.TLT? && op'.TGE?) || (op.TLTI? && op'.TGEI?)
    || (op.TLTU? && op'.TGEU?) || (op.TLTIU? && op'.TGEIU?)
  }

  lemma OneTrapIsRaised(i: Inst, j: Inst, a: Word, b: Word, s: Sys)
    requires OppositeTraps(i.op, j.op) && j.imm == i.imm
    ensures (Exec(i, a, b, s) == Quiet(Raise(s, 13)) && Exec(j, a, b, s) == Quiet(s)) ||
            (Exec(i, a, b, s) == Quiet(s) && Exec(j, a, b, s) == Quiet(Raise(s, 13)))
  {
    hide Exec, Raise, IsTrap;
    TrapKinds(i.op, j.op);
    var x := ExecTraps(i, a, b, s);
    var y := ExecTraps(j, a, b, s);
    if TrapsImmediate(i.op) { SignedApart(x, y); }
  }

  lemma TrapKinds(op: Op, op': Op)
    requires OppositeTraps(op, op')
    ensures IsTrap(op) && IsTrap(op') && TrapsImmediate(op) == TrapsImmediate(op')
  {
  }
}
