/** Assembled programs on the simulator itself: the text that the assembler makes, run by the machine
    that interprets it. */
module Simulation {
  import opened Word
  import opened Instruction
  import opened Linker
  import opened ForwardRefs
  import opened Programs
  import opened Arithmetic
  import opened Execution
  import opened Compilation
  import Cpu
  import DelayedLoads
  import Isa

  /** The machine is between instructions, and its loads deliver at once. */
  ghost predicate Ready(machine: Cpu.Machine)
    reads machine, machine.memory
  {
    machine.Valid() && !machine.delayedLoads && machine.load1.None? && machine.load2.None?
  }

  ghost function StateOf(machine: Cpu.Machine): State
    reads machine, machine.memory
  {
    Isa.State(machine.r, machine.Now())
  }

  /** The simulator gets as far as the reference machine does. */
  method RunTo(machine: Cpu.Machine, steps: nat, ghost target: State) returns (ended: Cpu.Ended)
    requires Ready(machine) && Run(Isa.Step, StateOf(machine), steps) == Some(target)
    modifies machine, machine.memory
    ensures ended.Continues? && Ready(machine) && StateOf(machine) == target
  {
    hide Run, Isa.Step;
    RunsAgree(StateOf(machine), steps);
    ended := machine.RunProgram(steps);
  }

  /** A computation on a constant or label, in any assembled program: as many steps as it has slots
      leave in rt what the operation makes of the full value. */
  method RunComputation(machine: Cpu.Machine, steps: nat, ghost n: nat, ghost sts: seq<Statement>, ghost k: nat,
                        ghost e: Entry, ghost m: Object) returns (ended: Cpu.Ended, ghost x: Word)
    requires Ready(machine) && Finished(n, sts, k, e, m) && Arrived(StateOf(machine), m, e) && e.at + steps == e.end
    requires IsConstOp(e.op) && e.rs != 1
    requires NoOverflow(e.op, RegOf(machine.r, e.rs), ValueOf(e, m.labels))
    modifies machine, machine.memory
    ensures ended.Continues? && Ready(machine) && machine.Now() == Moved(old(machine.Now()), e.end)
    ensures Sets(old(machine.r), machine.r, e.rt, x)
    ensures Means(e.op, RegOf(old(machine.r), e.rs), ValueOf(e, m.labels), x)
  {
    hide Run, Isa.Step, Finished, Arrived, IsConstOp, NoOverflow, Means, Sets, Accessed, Faithful;
    IsaFaithful();
    ghost var w;
    w, x := ProgramComputes(Isa.Step, Accessed, n, sts, k, e, m, StateOf(machine));
    ended := RunTo(machine, steps, Isa.State(w, Moved(machine.Now(), e.end)));
  }

  /** A load or store: its last step is the access to R[rs] + label + offset. */
  method RunAccess(machine: Cpu.Machine, steps: nat, ghost n: nat, ghost sts: seq<Statement>, ghost k: nat,
                   ghost e: Entry, ghost m: Object) returns (ended: Cpu.Ended, ghost u: State)
    requires Ready(machine) && Finished(n, sts, k, e, m) && Arrived(StateOf(machine), m, e) && e.at + steps == e.end
    requires (Isa.IsLoad(e.op) || Isa.IsStore(e.op)) && e.rs != 1 && steps > 0
    modifies machine, machine.memory
    ensures u.sys == Moved(old(machine.Now()), e.end - 1)
    ensures forall r: Reg | r != 1 :: RegOf(u.r, r) == RegOf(old(machine.r), r)
    ensures match Accessed(u, e.op, Wrap(RegOf(old(machine.r), e.rs) + ValueOf(e, m.labels)), e.rt)
            case Aborted => ended.Failed?
            case Stopped(t) => ended.Exited? && StateOf(machine) == t
            case Next(t) => ended.Continues? && Ready(machine) && StateOf(machine) == t
  {
    hide Run, Isa.Step, Finished, Arrived, Isa.IsLoad, Isa.IsStore, Accessed, Faithful;
    IsaFaithful();
    u := ProgramAccesses(Isa.Step, Accessed, n, sts, k, e, m, StateOf(machine));
    ended := RunTo(machine, steps - 1, u);
    ended := machine.RunSpim();
  }
}
