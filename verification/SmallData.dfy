/** Small data in a running program: what the directives put off $gp is reached by one instruction. */
module SmallData {
  import opened Word
  import opened Instruction
  import opened Linker
  import opened Expansion
  import opened Statements
  import opened ForwardRefs
  import opened Programs
  import opened Execution
  import opened Compilation
  import D = DataLayout
  import Isa

  /** The expression that stands for byte k of an item, off $gp. */
  function ByteExpr(it: D.GpItem, k: nat, gp: Word): ImmExpr { Const(Signed(Wrap(k + it.addr - gp))) }

  lemma SmallFits(x: int, op: Op, labels: Labels)
    requires -0x8000 <= x < 0x8000 && (Isa.IsLoad(op) || Isa.IsStore(op))
    ensures Single(op, Const(Signed(Wrap(x))), labels)
  {
    hide Isa.IsLoad, Isa.IsStore, IsLoadStore, ExtendsSign;
    AccessExtends(op);
    ConstIsSingle(op, Signed(Wrap(x)), labels);
  }

  lemma OneSlot(n: nat, sts: seq<Statement>, k: nat, e: Entry, m: Object)
    requires Finished(n, sts, k, e, m) && !IsJump(e.op)
    requires Single(e.op, e.e, ObjectAt(sts, Empty(n), k).labels)
    ensures e.end == e.at + 1
  {
    hide Single, Sound, WidePieces;
    ObjectLegal(sts, Empty(n), k);
    SinglePieces(e.op, e.rt, e.rs, e.e, ObjectAt(sts, Empty(n), k).labels);
  }

  lemma NoJump(op: Op)
    requires Isa.IsLoad(op) || Isa.IsStore(op)
    ensures !IsJump(op)
  {
  }

  lemma OneAccess(step: Machine, access: AccessEffect, n: nat, sts: seq<Statement>, k: nat, e: Entry, m: Object,
                  st: State, ea: Word)
    requires Faithful(step, access) && Finished(n, sts, k, e, m) && Arrived(st, m, e)
    requires (Isa.IsLoad(e.op) || Isa.IsStore(e.op)) && e.rs != 1
    requires e.end == e.at + 1 && Wrap(RegOf(st.r, e.rs) + ValueOf(e, m.labels)) == ea
    ensures step(st) == access(st, e.op, ea, e.rt)
  {
    hide Faithful, Finished, Arrived, Isa.IsLoad, Isa.IsStore, Run, RegOf, ValueOf;
    var u := ProgramAccesses(step, access, n, sts, k, e, m, st);
    NoSteps(step, st);
  }

  /** In any program, a load or store of a byte of an item off $gp is one instruction, and accesses
      that byte. */
  lemma ItemAccesses(step: Machine, access: AccessEffect, n: nat, sts: seq<Statement>, k: nat, e: Entry, m: Object,
                     st: State, items: seq<D.GpItem>, base: Word, end: int, i: nat, b: nat)
    requires Faithful(step, access) && Finished(n, sts, k, e, m) && Arrived(st, m, e)
    requires D.Arranged(items, base, end) && end < base + 0x1_0000 <= 0x1_0000_0000 && i < |items| && b < items[i].size
    requires (Isa.IsLoad(e.op) || Isa.IsStore(e.op)) && e.rs == 28 && RegOf(st.r, 28) == base + 0x8000
    requires e.e == ByteExpr(items[i], b, base + 0x8000)
    ensures e.end == e.at + 1 && items[i].addr + b < end
    ensures step(st) == access(st, e.op, items[i].addr + b, e.rt)
  {
    hide Faithful, Finished, Arrived, Isa.IsLoad, Isa.IsStore, Single, Run, D.Arranged, ByteExpr, ValueOf, ObjectAt;
    NoJump(e.op);
    FinishedHas(n, sts, k, e, m);
    ItemOperand(items, base, end, i, b, e, ObjectAt(sts, Empty(n), k).labels, m.labels);
    OneSlot(n, sts, k, e, m);
    OneAccess(step, access, n, sts, k, e, m, st, items[i].addr + b);
  }

  lemma ItemOperand(items: seq<D.GpItem>, base: Word, end: int, i: nat, b: nat, e: Entry, first: Labels, last: Labels)
    requires D.Arranged(items, base, end) && end < base + 0x1_0000 <= 0x1_0000_0000 && i < |items| && b < items[i].size
    requires (Isa.IsLoad(e.op) || Isa.IsStore(e.op)) && e.e == ByteExpr(items[i], b, base + 0x8000)
    ensures Single(e.op, e.e, first)
    ensures Wrap(base + 0x8000 + ValueOf(e, last)) == items[i].addr + b < end
  {
    hide Single, ByteExpr, ValueOf, Isa.IsLoad, Isa.IsStore;
    ItemFits(items, base, end, i, b, e.op, first);
    D.ArrangedWithin(items, base, end, i);
    ItemAddress(items[i], b, base + 0x8000, e, last);
  }

  lemma ItemFits(items: seq<D.GpItem>, base: Word, end: int, i: nat, b: nat, op: Op, labels: Labels)
    requires D.Arranged(items, base, end) && end < base + 0x1_0000 <= 0x1_0000_0000 && i < |items| && b < items[i].size
    requires Isa.IsLoad(op) || Isa.IsStore(op)
    ensures Single(op, ByteExpr(items[i], b, base + 0x8000), labels)
  {
    hide Single, Isa.IsLoad, Isa.IsStore, Const;
    D.ItemsReachable(items, base, end, i, b);
    SmallFits(b + items[i].addr - (base + 0x8000), op, labels);
  }

  lemma ItemAddress(it: D.GpItem, b: nat, gp: Word, e: Entry, labels: Labels)
    requires e.e == ByteExpr(it, b, gp) && it.addr + b < 0x1_0000_0000 && b < 0x8000_0000
    ensures Wrap(gp + ValueOf(e, labels)) == it.addr + b
  {
    D.OffGp(b, it.addr, gp);
  }

  lemma FinishedHas(n: nat, sts: seq<Statement>, k: nat, e: Entry, m: Object)
    requires Finished(n, sts, k, e, m)
    ensures LegalRun(sts, Empty(n)) && k < |sts|
  {
  }

  lemma NoSteps(step: Machine, st: State)
    ensures Run(step, st, 0) == Some(st)
  {
  }
}
