# A MIPS32 assembler back end and its simulator, verified

This project models the machine-level half of a SPIM-style MIPS32 system and proves how its parts fit
together: the assembler back end that turns statements into instructions and patches forward
references, the simulator that runs them, the segmented memory underneath, the instruction codec, the
data directives, and the constant-expression parser.

`dafny verify dfyconfig.toml` checks everything.

## How it is organised

| file | contents |
|---|---|
| `Word.dfy` | 32-bit words, their signed reading, and the bitwise operators, defined digit by digit |
| `Instruction.dfy`, `Codec.dfy` | instructions; encoding and decoding |
| `Isa.dfy` | the reference definition: one step of the architecture over a flat byte memory |
| `Arithmetic.dfy`, `Control.dfy`, `Loads.dfy`, `HiLo.dfy`, `Coprocessor.dfy` | what the instructions of that definition mean, in integers and digits, and how they relate to each other |
| `OpcodeWords.dfy` | the encodings as whole words |
| `MemoryImage.dfy`, `Multiplier.dfy`, `Division.dfy`, `Masks.dfy`, `Shifts.dfy`, `Cpu.dfy` | the simulator: segment vectors, the 16-bit multiplier, division, masks and shifts, and the class `Machine`, whose `RunSpim` is proved equal to a step of `Isa` and whose `RunProgram` to a run |
| `Linker.dfy`, `Expansion.dfy`, `Statements.dfy` | immediates, labels and the expansion of statements as values, and what the emitted pieces amount to |
| `ForwardRefs.dfy`, `Pending.dfy`, `Programs.dfy` | statements that wait for a label, and whole programs |
| `Assembler.dfy` | the class `Assembler`, proved against those values |
| `Execution.dfy`, `Compilation.dfy`, `Simulation.dfy` | running what was assembled: as instructions, as whole programs, and on the class `Machine` |
| `DelayedLoads.dfy`, `Exceptions.dfy`, `MemoryRuns.dfy`, `Unaligned.dfy`, `TextData.dfy` | properties of runs of the machine |
| `DataLayout.dfy`, `SmallData.dfy` | data directives and the items reached off `$gp` |
| `Expression.dfy`, `Precedence.dfy`, `Numerals.dfy` | constant expressions: evaluator, printer, grammar; what the operators compute and how tightly they bind; numerals |

The main line of argument is a small compiler-correctness proof. `Assembler.AssembleAll` produces the
text that `Programs.Assembled` describes. `Programs.AssemblyCorrect` shows that in every finished
program each statement whose label is defined, earlier or later, *fulfils* what it asks for with the
label's final address. `Compilation.ProgramComputes`, `ProgramUppers`, `ProgramAccesses`,
`ProgramBranches`, `ProgramJumps` and `ProgramRegisters` run the text on any machine that is
`Execution.Faithful`; `Execution.IsaFaithful` shows that the reference step is, `Cpu.Machine.RunSpim` that
the simulator takes exactly that step, and `Simulation.RunComputation` and `RunAccess` put the two together.

The reference definition is not taken on trust. `Arithmetic.Means`, `HiLo.Multiplies`, `Loads.Delivers`,
`Control.Condition` and their like say in integers and in digits of a word what an instruction leaves, without
a function of `Isa.dfy`; the results about programs and runs are stated in those terms.

Conventions: a word is an `int` from 0 to 2^32 - 1, and every wrap-around is written out. C's undefined
cases (signed overflow) wrap. Memory is little-endian; `bare_machine`, `delayed_branches` and
`should_fail_on_exception` are off. `run_error` and `fatal_error` end the run (`Abort`, `Fail`, `None`).
Where the source has a function without a `return` (`BASE` at `src/controllers/mips/inst.h:323`,
`CP0_ExCode` at `src/controllers/mips/reg.h:282`), the expression it computes is its result.

Where the code and its documentation differ, the model follows the code:

- a jump whose target has bit 24 set does not survive decoding (`src/controllers/mips/inst.cpp:473-584` masks
  with 0x2ffffff); `Codec.RoundTrip` states the exact condition;
- a second exception moves EPC when the cause word carries any bit above its exception code, a pending
  interrupt or the branch-delay bit: the test at `src/controllers/mips/cpu_run.cpp:1616` compares the shifted
  word with an unsigned constant (`src/controllers/mips/inst.h:373`); `Exceptions.SecondException` states when,
  and `Exceptions.BranchDelayMovesEpc` shows it happen;
- `lui rt, X` puts X into the upper half when X is known and fits 16 bits, but loads X itself when X is
  defined later: the order matters unless X is 0 or does not fit (`Compilation.UpperOrder`, with the
  programs of `Compilation.UpperInput`);
- a taken branch goes by four times its field, whose digit 15, not 17, is taken for the sign
  (`src/controllers/mips/inst.h:328`); `Control.Branches` states the displacement, and `Execution.BranchLands` when it is
  the one that was asked for;
- a load to `$0` is visible for one instruction when loads are delayed (`DelayedLoads.ZeroLoadShows`);
- the first byte of data stored exactly at the top of the data segment raises an exception
  (`DataLayout.StoreAtTop`), so the location counter has to start below the top;
- a unary operator over a constant of 2^31 or more prints text that the grammar rejects
  (`Expression.PrintThenParseExactly`).

## Model

| member | source | states |
|---|---|---|
| `Word.AndDefined` | src/controllers/mips/cpu_run.cpp:234-241 | the arithmetic `And` is the one word whose every bit is the conjunction of the operands' bits |
| `Word.OrDefined` | src/controllers/mips/cpu_run.cpp:753-760 | the same for `Or`, which stays a word |
| `Word.XorDefined` | src/controllers/mips/cpu_run.cpp:1163-1171 | the same for `Xor` |
| `Word.FieldMask` | src/controllers/mips/cpu_run.cpp:1743-1744 | `x & mask` keeps exactly a field and `x & ~mask` exactly the rest, for every field mask |
| `Codec.RoundTrip` | src/controllers/mips/inst.cpp:353-584 | decoding the encoding gives back the opcode and every field of its class, for all integer opcodes; for jumps if and only if bit 24 of the target is clear; which words these are, `OpcodeWords` says |
| `Codec.LooksUp` | src/controllers/mips/inst.cpp:473-508 | the key that decoding takes from an encoded word is found in the table row that encoding used |
| `OpcodeWords.EncodingIs` | src/controllers/mips/inst.cpp:353-440 | the encoding of every instruction is the word of its opcode plus each field that its kind has, times the weight of its place |
| `OpcodeWords.WordDecodes` | src/parser/instruction/op.h:433-838 | with zero fields every opcode is encoded as its word in the architecture, 0x00000021 for ADDU, and that word decodes to that opcode |
| `OpcodeWords.UnsignedFollows` | src/parser/instruction/op.h:433-838 | the opcode digits of every unsigned variant are those of the signed one plus 1, whatever the fields |
| `OpcodeWords.SubFollows` | src/parser/instruction/op.h:434-789 | those of SUB are those of ADD plus 2 |
| `OpcodeWords.StoreFollows` | src/parser/instruction/op.h:433-838 | those of each store are those of its load plus 8 |
| `OpcodeWords.ImmediateShares` | src/parser/instruction/op.h:433-838 | each immediate form has the last three opcode digits of its register form |
| `OpcodeWords.TrapShares` | src/parser/instruction/op.h:433-838 | so has each trap on an immediate |
| `OpcodeWords.StoredComputes` | src/controllers/mips/cpu_mem.cpp:9-21 | the word of a computing instruction, put together from its fields, stored into text and fetched, writes what its operation means on the registers that it names |
| `OpcodeWords.StoredAdduAdds` | src/parser/instruction/op.h:439 | so 0x00000021 with three registers, stored and fetched, adds modulo 2^32 |
| `Arithmetic.ExecComputes` | src/controllers/mips/cpu_run.cpp:198-240 | every sum, comparison, logical operation and shift writes one register and does nothing else; the result is told in integers (sums modulo 2^32, the order of signed or unsigned numbers) or digit by digit, and the immediate by the number or the digits that it stands for |
| `Arithmetic.OneMeaning` | src/controllers/mips/cpu_run.cpp:198-240 | those facts leave exactly one result |
| `Arithmetic.OverflowRaises` | src/controllers/mips/cpu_run.cpp:198-224 | ADD, ADDI and SUB raise exception 12 and write nothing when the integer does not fit |
| `Arithmetic.OrderIrreflexive` | src/controllers/mips/cpu_run.cpp:824-859 | SLT and SLTU write 0 for a word and itself |
| `Arithmetic.OrderTransitive` | src/controllers/mips/cpu_run.cpp:824-859 | they are transitive |
| `Arithmetic.OrderTotal` | src/controllers/mips/cpu_run.cpp:824-859 | of two different words exactly one is below the other |
| `Arithmetic.OrderSuccessor` | src/controllers/mips/cpu_run.cpp:824-859 | every word is below its successor but the greatest number, 0x7fffffff signed and 0xffffffff unsigned |
| `Arithmetic.OrderImmediate` | src/controllers/mips/cpu_run.cpp:833-850 | SLTI and SLTIU compare with the word that has the value of the immediate |
| `Arithmetic.SubuUndoesAddu` | src/controllers/mips/cpu_run.cpp:226-232 | SUBU takes off what ADDU has added, for all words |
| `Control.Branches` | src/controllers/mips/cpu_run.cpp:249-329 | when each branch is taken, told by bit 31 and by zero, where it goes, which ones skip the next instruction and which ones link; nothing else changes |
| `Control.OneIsTaken` | src/controllers/mips/cpu_run.cpp:249-329 | of BEQ and BNE, BGEZ and BLTZ, BGTZ and BLEZ, and their variants, exactly one is taken |
| `Control.AboutZero` | src/controllers/mips/cpu_run.cpp:259-330 | which of them are taken at 0, and BLTZ of a word as BGTZ of its negation |
| `Control.Jumps` | src/controllers/mips/cpu_run.cpp:428-458 | where J, JAL, JR and JALR go and which register gets the return address |
| `Control.CallReturns` | src/controllers/mips/cpu_run.cpp:428-458 | JR $31 comes back behind the JAL that set it |
| `Control.ExecTraps` | src/controllers/mips/cpu_run.cpp:1060-1161 | a trap raises exception 13 exactly when its comparison holds; immediates keep their sign in unsigned comparisons too |
| `Control.OneTrapIsRaised` | src/controllers/mips/cpu_run.cpp:1060-1161 | of two opposite traps on the same operands exactly one is raised |
| `Control.TrapsAsCompared` | src/controllers/mips/cpu_run.cpp:1121-1147 | TLT and TLTU are raised exactly when SLT and SLTU write 1 |
| `HiLo.ExecMultiplies` | src/controllers/mips/cpu_run.cpp:617-635 | what each product leaves in HI:LO as one number modulo 2^64: the signed or unsigned product, added to what was there by MADD and MADDU and taken off it by MSUB and MSUBU; MUL also writes the low half |
| `HiLo.AddsToZero` | src/controllers/mips/cpu_run.cpp:617-634 | onto zero, MADD and MADDU leave what MULT and MULTU leave |
| `HiLo.Undoes` | src/controllers/mips/cpu_run.cpp:670-690 | MSUB restores any HI:LO that MADD has changed, and the other way around, unsigned too |
| `HiLo.TimesOne` | src/controllers/mips/cpu_run.cpp:736-747 | multiplying by 1 leaves the operand, with its sign or with zeros in HI |
| `HiLo.Distributes` | src/controllers/mips/cpu_run.cpp:736-747 | products are additive in an operand |
| `HiLo.HalvesComeBack` | src/controllers/mips/cpu_run.cpp:647-735 | MFHI and MFLO read back what MTHI and MTLO put there, and the other half stays |
| `HiLo.ProductRead` | src/controllers/mips/cpu_run.cpp:647-655 | MFHI and MFLO read the two words of a product |
| `HiLo.OneMoves` | src/controllers/mips/cpu_run.cpp:656-668 | of MOVN and MOVZ exactly one moves, MOVZ for zero |
| `HiLo.CountsLeading` | src/controllers/mips/cpu_run.cpp:356-380 | CLZ counts the zeros above the highest one of the word, and CLO does so on the complement |
| `Coprocessor.MovesToCp0` | src/controllers/mips/cpu_run.cpp:692-721 | which digits MTC0 writes, sets or drops in each register, and MFC0 reads the outcome |
| `Coprocessor.FaultNumbers` | src/controllers/mips/cpu_mem.cpp:152-304 | which exception a bad read, write or fetch leaves pending, and that the address is recorded |
| `Coprocessor.InstructionNumbers` | src/controllers/mips/cpu_run.cpp:331-343 | which exception BREAK and the instructions of absent units leave pending |
| `Coprocessor.CachesIgnored` | src/controllers/mips/cpu_run.cpp:345-347 | CACHE, PREF and SYNC do nothing |
| `Multiplier.UnsignedMultiply` | src/controllers/mips/cpu_run.cpp:1639-1668 | HI:LO is the exact 64-bit product of all word pairs |
| `Multiplier.SignedMultiply` | src/controllers/mips/cpu_run.cpp:1670-1691 | HI:LO is the exact signed product modulo 2^64, INT_MIN included |
| `Multiplier.Accumulate` | src/controllers/mips/cpu_run.cpp:617-634 | adding a product to HI:LO with its carry is addition modulo 2^64 |
| `Multiplier.Deduct` | src/controllers/mips/cpu_run.cpp:670-690 | subtracting a product with its borrow is subtraction modulo 2^64 |
| `Division.DivideLaw` | src/controllers/mips/cpu_run.cpp:396-407 | after DIV, quotient times divisor plus remainder is the dividend, the remainder is smaller than the divisor and has the dividend's sign |
| `Division.DivideUnsignedLaw` | src/controllers/mips/cpu_run.cpp:409-420 | the same for DIVU; both leave HI and LO alone for a zero divisor and for 0x80000000 / 0xffffffff |
| `Division.QuotientFits` | src/controllers/mips/cpu_run.cpp:396-407 | no other quotient of words overflows |
| `Division.OneQuotient` | src/controllers/mips/cpu_run.cpp:396-407 | the division law leaves no other quotient and remainder, so the simulator may compute them in any way |
| `Shifts.ShiftLeftBits` | src/controllers/mips/cpu_run.cpp:802-822 | digit by digit, SLL moves the word up and brings in zeros |
| `Shifts.ShiftRightBits` | src/controllers/mips/cpu_run.cpp:885-907 | SRL moves it down and brings in zeros |
| `Shifts.ShiftArithBits` | src/controllers/mips/cpu_run.cpp:861-883 | SRA moves it down and brings in copies of the sign |
| `Masks.SumOverflows` | src/controllers/mips/cpu_run.cpp:86-92 | the sign-bit test for sums is true exactly when the exact sum does not fit |
| `Masks.DifferenceOverflows` | src/controllers/mips/cpu_run.cpp:909-921 | the same for differences |
| `Masks.CodeMask` | src/controllers/mips/cpu_run.cpp:1743-1744 | masking and or-ing the cause word replaces its exception code and nothing else |
| `Masks.ExlMask` | src/controllers/mips/cpu_run.cpp:1746-1747 | setting and clearing the EXL bit |
| `Masks.RegionMask` | src/controllers/mips/cpu_run.cpp:428-441 | the top four bits of the PC |
| `Masks.ShiftedByte` | src/controllers/mips/cpu_mem.cpp:166-174 | shifting an encoding right selects its k-th byte |
| `Masks.ByteStored` | src/controllers/mips/cpu_mem.cpp:232-242 | the masks for a byte stored into text replace exactly that byte of the encoding |
| `Masks.HalfStored` | src/controllers/mips/cpu_mem.cpp:243-253 | the same for a half |
| `Masks.LoadLeft` | src/controllers/mips/cpu_run.cpp:511-562 | the four shift-and-mask cases of LWL are the merge of the bytes up to the address |
| `Masks.LoadRight` | src/controllers/mips/cpu_run.cpp:564-615 | the same for LWR, from the address on |
| `Masks.StoreLeft` | src/controllers/mips/cpu_run.cpp:938-992 | the four cases of SWL |
| `Masks.StoreRight` | src/controllers/mips/cpu_run.cpp:994-1048 | the four cases of SWR |
| `MemoryImage.Vectors.LoadsField` | src/controllers/mips/cpu_mem.cpp:23-69 | the byte, half and word views of a segment vector read the same flat little-endian memory |
| `MemoryImage.Vectors.PutHolds` | src/controllers/mips/cpu_mem.cpp:84-133 | writing through any view changes exactly the bytes of the access in that memory |
| `MemoryImage.Vectors.StackGrowthHolds` | src/controllers/mips/mem.cpp:202-237 | a stack vector with zeros put below it holds the same memory with a lower bottom |
| `MemoryImage.Vectors.DataGrowthHolds` | src/controllers/mips/mem.cpp:166-195 | a data vector with zeros appended holds the same memory with a higher top |
| `MemoryImage.MemImage.constructor` | src/controllers/mips/mem.cpp:286-370 | fresh segments hold a memory of zeros, with sizes rounded up |
| `MemoryImage.MemImage.Peek` | src/controllers/mips/cpu_mem.cpp:23-69 | an aligned read of a mapped address returns the bytes of the flat memory |
| `MemoryImage.MemImage.Poke` | src/controllers/mips/cpu_mem.cpp:84-133 | an aligned write stores exactly those bytes and stays in bounds |
| `MemoryImage.MemImage.CopyToTop` | src/controllers/mips/mem.cpp:218-234 | the copying loop moves the old stack to the top of a zeroed vector |
| `MemoryImage.MemImage.ExpandStack` | src/controllers/mips/mem.cpp:202-237 | growth succeeds exactly within the limit, at least doubles the stack, and changes no byte |
| `MemoryImage.MemImage.ClearBytes` | src/controllers/mips/mem.cpp:191-194 | the loop over the new bytes makes every word from there on zero, whatever was in it, and leaves the words before alone |
| `MemoryImage.MemImage.ExpandData` | src/controllers/mips/mem.cpp:166-195 | growth succeeds exactly within the limit and changes no byte |
| `Cpu.Machine.RaiseException` | src/controllers/mips/cpu_run.cpp:1717-1754 | EPC only outside a handler, the exception code, EXL |
| `Cpu.Machine.HandleException` | src/controllers/mips/cpu_syscall.cpp:282-294 | control goes to the handler and the exception is no longer pending |
| `Cpu.Machine.ReadMem` | src/controllers/mips/cpu_mem.cpp:23-69 | reads of any size at any address, including alignment faults, text, growth and bus errors, are the reference read; what it delivers, `MemoryRuns.LoadsWhatWasStored` says |
| `Cpu.Machine.BadMemRead` | src/controllers/mips/cpu_mem.cpp:152-216 | the slow path of a read |
| `Cpu.Machine.SetMem` | src/controllers/mips/cpu_mem.cpp:84-133 | writes likewise |
| `Cpu.Machine.BadMemWrite` | src/controllers/mips/cpu_mem.cpp:218-304 | the slow path of a write, including text replaced by the decoding of its changed encoding |
| `Cpu.Machine.RunCompute` | src/controllers/mips/cpu_run.cpp:226-240 | three-register and immediate computations have their reference outcome, whose meaning `Arithmetic.ExecComputes` tells |
| `Cpu.Machine.RunSum` | src/controllers/mips/cpu_run.cpp:198-224 | ADD, ADDI and SUB, which raise an exception instead of overflowing |
| `Cpu.Machine.RunShift` | src/controllers/mips/cpu_run.cpp:802-822 | shifts, by shift amount or register |
| `Cpu.Machine.CountLeading` | src/controllers/mips/cpu_run.cpp:356-380 | the loops of CLO and CLZ count the leading run of one digit |
| `Cpu.Machine.RunMove` | src/controllers/mips/cpu_run.cpp:637-668 | conditional moves, counts, HI/LO and CP0 moves |
| `Cpu.Machine.RunMultiply` | src/controllers/mips/cpu_run.cpp:736-747 | the multiplications and accumulations have theirs, which `HiLo.ExecMultiplies` tells |
| `Cpu.Machine.Divide` | src/controllers/mips/cpu_run.cpp:396-420 | truncating division, and HI and LO left alone for the two excluded operand pairs |
| `Cpu.Machine.RunBranch` | src/controllers/mips/cpu_run.cpp:249-329 | tests, links and likely branches |
| `Cpu.Machine.RunTransfer` | src/controllers/mips/cpu_run.cpp:422-458 | jumps and ERET |
| `Cpu.Machine.RunTrap` | src/controllers/mips/cpu_run.cpp:1060-1161 | a trap is raised exactly when its condition on signed or unsigned numbers holds |
| `Cpu.Machine.RunLoad` | src/controllers/mips/cpu_run.cpp:460-499 | loads, aligned and not, delivered at once or postponed |
| `Cpu.Machine.RunStore` | src/controllers/mips/cpu_run.cpp:779-800 | stores |
| `Cpu.Machine.StoreUnaligned` | src/controllers/mips/cpu_run.cpp:938-1048 | SWL and SWR as read, merge and write |
| `Cpu.Machine.DoDelayedUpdate` | src/controllers/mips/cpu_run.cpp:161-170 | the two-slot shift register of delayed loads |
| `Cpu.Machine.FinishInst` | src/controllers/mips/cpu_run.cpp:1612-1622 | the PC is advanced and a pending exception is taken |
| `Cpu.Machine.DoSyscall` | src/controllers/mips/cpu_syscall.cpp:168-174 | SBRK; besides it, the two exits end the run and every other call is reported as a failure |
| `Cpu.Machine.RunSpim` | src/controllers/mips/cpu_run.cpp:94-1623 | a whole step of the simulator, on any state and in either load mode, is the step of the reference machine |
| `Cpu.Machine.RunProgram` | src/controllers/mips/cpu.h:131 | any number of steps of the simulator, from any state and in either load mode, is the run of the reference machine, stopping where it stops |
| `Expansion.HalvesAdd` | src/controllers/mips/cpu_sym.cpp:66-92 | adding 0x10000 before the high half is taken makes up for a low half that reads as negative |
| `Expansion.KnownHalves` | src/controllers/mips/cpu_inst.cpp:324-343 | for every displacement too large for a field, the high half plus its carry still fits 16 bits, is not zero, and compensates the sign extension exactly |
| `Expansion.WideIsNotSpecial` | src/controllers/mips/cpu_inst.cpp:330-347 | the special case of sign-extending displacements is never reached from `i_type_inst` |
| `Expansion.PiecesCount` | src/controllers/mips/cpu_inst.cpp:255-382 | every statement expands to one to three instructions |
| `Expansion.RankDrops` | src/controllers/mips/cpu_inst.cpp:255-297 | the measure under which the expansion ends drops from `i_type_inst` to `i_type_inst_full_word` |
| `Expansion.WideRankDrops` | src/controllers/mips/cpu_inst.cpp:315-382 | and drops again on each call back, with every expression that is passed on |
| `Expansion.EmitAllKeeps` | src/controllers/mips/cpu_sym.cpp:66-92 | emission changes nothing before the new slots but offsets of expressions already resolved, and gives no label an address |
| `Statements.BranchField` | src/controllers/mips/cpu_sym.cpp:43-53 | a branch gets the same field whether or not its displacement was cut to 16 bits first |
| `Statements.ValueFulfilled` | src/controllers/mips/inst.h:149-159 | LUI, ORI or both, as emitted for a constant, make up the whole constant |
| `Statements.AccessFulfilled` | src/controllers/mips/cpu_inst.cpp:324-343 | the LUI, ADDU and access emitted for a wide displacement add up to it |
| `Statements.KnownFulfilled` | src/controllers/mips/cpu_inst.cpp:255-382 | every statement whose expression has a value, LUI among them, is expanded to instructions that use exactly that value |
| `ForwardRefs.ConstantResolves` | src/controllers/mips/cpu_sym.cpp:93-108 | resolving the two waiting halves of a constant makes the constant |
| `ForwardRefs.AccessResolves` | src/controllers/mips/cpu_sym.cpp:66-108 | resolving an access before its LUI, the latest use first, makes the two halves add up to label plus offset |
| `ForwardRefs.BranchResolves` | src/controllers/mips/cpu_sym.cpp:34-53 | resolving a forward branch gives the field for its own place |
| `ForwardRefs.JumpResolves` | src/controllers/mips/cpu_sym.cpp:54-65 | resolving a forward jump gives the target field |
| `ForwardRefs.EntryResolves` | src/controllers/mips/cpu_sym.cpp:14-108 | resolving the recorded uses of any waiting statement, in their order, completes it and touches nothing else |
| `Pending.PendingEmit` | src/controllers/mips/sym-tbl.cpp:88-99 | emitting a waiting statement writes its pieces unfilled and records exactly their slots, the latest first |
| `Pending.OpenCodeUses` | src/controllers/mips/cpu_inst.cpp:348-360 | which pieces of each kind of statement wait |
| `Pending.WaitsStays` | src/controllers/mips/cpu_sym.cpp:66-92 | later emission does not disturb a waiting statement |
| `Pending.DoneStays` | src/controllers/mips/cpu_sym.cpp:66-92 | nor a finished one |
| `Programs.LogDefined` | src/controllers/mips/cpu_sym.cpp:14-26 | resolving all uses of a label completes every statement that waits for it and disturbs no other, for any number of statements |
| `Programs.DoPreserves` | src/controllers/mips/cpu.h:259-278 | every statement and definition keeps the invariant: each earlier statement is done if its label is defined and waits intact if not, and the lists of uses are exact |
| `Programs.UsesWait` | src/controllers/mips/cpu_sym.cpp:14-26 | every recorded use is of an instruction that still waits for that label, so each is resolved once |
| `Programs.AssemblyCorrect` | src/controllers/mips/cpu_inst.cpp:255-382 | in every finished program, every statement whose label is defined somewhere, before it or after it, does what it asks for with the label's final address |
| `Programs.UpperAssembled` | src/controllers/mips/cpu_inst.cpp:361-380 | the slots of a finished LUI hold the operand in its field if it was known and fitted when the statement was met, and load the whole value otherwise |
| `Programs.AddressLasts` | src/controllers/mips/cpu.h:259-278 | the address that a label has at any statement is its final one |
| `Assembler.Assembler.constructor` | src/controllers/mips/mem.cpp:286-310 | an empty text segment |
| `Assembler.Assembler.LookupLabel` | src/controllers/mips/sym-tbl.cpp:65-76 | the entry for a name, made if there is none |
| `Assembler.Assembler.RecordInstUsesSymbol` | src/controllers/mips/sym-tbl.cpp:88-99 | the current location goes to the front of the label's uses |
| `Assembler.Assembler.StoreInstruction` | src/controllers/mips/cpu_inst.cpp:31-49 | the instruction stands encoded at the location, which advances by 4; it fails exactly at the end of the segment |
| `Assembler.Assembler.ResolveALabelSub` | src/controllers/mips/cpu_sym.cpp:28-108 | the field is filled with the value of the expression, and the LUI looked back to gets its carry |
| `Assembler.Assembler.CompensateHighHalf` | src/controllers/mips/cpu_sym.cpp:66-92 | which of the two instructions before is bumped, if any |
| `Assembler.Assembler.ITypeInst` | src/controllers/mips/cpu_inst.cpp:255-297 | emits the pieces of the statement; fails exactly without room or without a form; the recursion ends |
| `Assembler.Assembler.ITypeInstFullWord` | src/controllers/mips/cpu_inst.cpp:315-382 | the three ways to build a wide immediate |
| `Assembler.Assembler.ProduceImmediate` | src/controllers/mips/inst.h:149-159 | emits LUI, ORI, or both |
| `Assembler.Assembler.JTypeInst` | src/controllers/mips/cpu_inst.cpp:103-116 | emits a jump, filled in or waiting |
| `Assembler.Assembler.RTypeInst` | src/controllers/mips/cpu_inst.cpp:130-133 | emits a register instruction |
| `Assembler.Assembler.RShTypeInst` | src/controllers/mips/cpu_inst.cpp:137-142 | emits a shift by the low five bits of its amount |
| `Assembler.Assembler.ResolveLabelUses` | src/controllers/mips/cpu_sym.cpp:14-26 | the loop resolves every use in the order of the list and empties it |
| `Assembler.Assembler.RecordLabel` | src/controllers/mips/cpu.h:259-278 | a label gets its address once and its uses are resolved; a second definition changes nothing; a label in the $gp area keeps its address, and its uses are resolved |
| `Assembler.Assembler.Assemble` | src/controllers/mips/cpu_inst.cpp:103-142 | one statement of a program, with the exact resulting text, location and labels; it fails exactly when no slot is left |
| `Assembler.Assembler.AssembleAll` | src/controllers/mips/cpu_inst.cpp:31-49 | a whole program assembles to the text that the program theorems are about, and the assembly fails exactly when the program fills the segment |
| `Execution.IsaFaithful` | src/controllers/mips/cpu_run.cpp:94-1623 | the reference machine runs computations, accesses, branches and jumps the way the assembler counts on |
| `Execution.RunsAgree` | src/controllers/mips/cpu_run.cpp:94-1623 | the runs that the program theorems speak of are the runs of the reference machine |
| `Execution.BlockRuns` | src/controllers/mips/cpu_run.cpp:226-240 | straight-line computations from one slot to another |
| `Execution.ComputesRuns` | src/controllers/mips/cpu_inst.cpp:361-380 | the expansion of a computation sets rt to the operation on the whole constant and changes only $at besides |
| `Execution.AccessesRuns` | src/controllers/mips/cpu_inst.cpp:324-357 | the last instruction of an expanded access finds R[rs] plus the displacement modulo 2^32 |
| `Execution.BranchLands` | src/controllers/mips/inst.h:328 | a taken branch lands where its displacement says if and only if that is a whole number of words and fits 16 bits |
| `Execution.JumpLands` | src/controllers/mips/cpu_run.cpp:428-441 | J and JAL land on the target if and only if it is aligned and has the top four bits of the PC |
| `Compilation.RegisterStands` | src/controllers/mips/cpu_inst.cpp:130-142 | a register instruction or shift stays as written, whatever is assembled and defined later |
| `Compilation.RunClean` | src/controllers/mips/cpu_run.cpp:177-184 | no slot of a statement refers to a symbol other than its own, so a finished statement never stops the simulator |
| `Compilation.ProgramComputes` | src/controllers/mips/cpu_inst.cpp:255-297 | in any assembled program, running a computation on a constant or label puts into rt the one word that the operation means, in integers or digits, on R[rs] and its full 32-bit value, changes no other register but $at, and advances the PC by 4 per instruction |
| `Compilation.ProgramUppers` | src/controllers/mips/cpu_inst.cpp:361-380 | in any assembled program, LUI leaves its operand in the upper half of rt if it was known and fitted 16 bits, and the whole value of the operand otherwise |
| `Compilation.UpperOrder` | src/controllers/mips/cpu_inst.cpp:255-297 | an LUI whose label comes first and one whose label comes later load the same value if and only if that is 0 or does not fit 16 bits |
| `Compilation.UpperInput` | src/controllers/mips/cpu_inst.cpp:255-297 | `x = 4` before `lui $8, x` makes it load 0x40000, and after it 4 |
| `Compilation.ProgramRegisters` | src/controllers/mips/cpu_inst.cpp:130-142 | in any assembled program, a register computation or shift writes the one word that it means on the registers that it names |
| `Compilation.ProgramAccesses` | src/controllers/mips/cpu_inst.cpp:317-357 | in any assembled program, every load and store accesses R[rs] plus label plus offset modulo 2^32, wherever the label was defined |
| `Compilation.ProgramBranches` | src/controllers/mips/cpu_inst.cpp:358-360 | every taken branch in range, forward or backward, leaves the PC at its label |
| `Compilation.ProgramJumps` | src/controllers/mips/cpu_inst.cpp:103-116 | every jump in its region leaves the PC at its label |
| `Simulation.RunTo` | src/controllers/mips/cpu_run.cpp:94-1623 | wherever the reference machine gets in some number of steps, the simulator gets too |
| `Simulation.RunComputation` | src/controllers/mips/cpu_inst.cpp:255-297 | the simulator, with any assembled program in its text segment, runs a computation on a constant or label until rt holds what the operation means on them |
| `Simulation.RunAccess` | src/controllers/mips/cpu_inst.cpp:317-357 | and every load or store to its access at R[rs] plus label plus offset |
| `DelayedLoads.ExecIgnores` | src/controllers/mips/cpu_run.cpp:197-1609 | the effect of an instruction depends on no source register that it does not read |
| `DelayedLoads.StepSimulates` | src/controllers/mips/cpu_run.cpp:148-170 | one step of the machine with delayed loads is one step of the immediate one, with at most two pending loads put on top of its registers |
| `DelayedLoads.DelayedLoadsSimulate` | src/controllers/mips/cpu_run.cpp:139-195 | over every run in which no instruction touches what the one before it loads, and none reads $0 while a load to $0 is delivered, the two machines agree, faults and system calls included |
| `DelayedLoads.RunConserves` | src/controllers/mips/cpu_run.cpp:161-170 | in every run, the loads issued are exactly those committed and still pending, in order |
| `DelayedLoads.LoadIsLate` | src/controllers/mips/cpu_run.cpp:161-170 | of two copies of a loaded register behind its load, the first has the old value and the second the loaded one |
| `DelayedLoads.ZeroLoadShows` | src/controllers/mips/cpu_run.cpp:103 | why $0 may not be read then: reading $0 while a load to it is delivered gives the loaded value |
| `Exceptions.FirstException` | src/controllers/mips/cpu_run.cpp:1717-1754 | for every cause word, an exception outside a handler records its place and code, sets EXL and enters the handler |
| `Exceptions.SecondException` | src/controllers/mips/cpu_run.cpp:1612-1620 | with EXL set, an exception keeps EPC if and only if the cause word has no bit above its exception code, and otherwise moves it to its own place |
| `Exceptions.BranchDelayMovesEpc` | src/controllers/mips/cpu_run.cpp:1612-1620 | in a handler, MTC0 of 0x80000000 to the cause word and then a trap move EPC to the trap |
| `Exceptions.ExecStays` | src/controllers/mips/cpu_run.cpp:197-1609 | no instruction but ERET and MTC0 leaves a handler's state |
| `Exceptions.HandlerKeepsEpc` | src/controllers/mips/cpu_run.cpp:1717-1754 | in a handler whose cause word has nothing above its code, over any run without ERET and MTC0, EPC stays put and EXL stays set, whatever further exceptions occur |
| `Exceptions.HandlerReturns` | src/controllers/mips/cpu_run.cpp:422-426 | ERET after such a run resumes at that EPC with EXL clear |
| `Exceptions.LateHandlerKeepsEpc` | src/controllers/mips/cpu_run.cpp:1717-1754 | EPC and EXL are kept in the same way over any run with delayed loads |
| `Exceptions.LateHandlerReturns` | src/controllers/mips/cpu_run.cpp:422-426 | and ERET resumes at that EPC, delivering the load that is due |
| `MemoryRuns.GrowthIsInvisible` | src/controllers/mips/cpu_mem.cpp:198-204 | growing the stack keeps the segments disjoint and every byte, and maps the address |
| `MemoryRuns.SbrkIsInvisible` | src/controllers/mips/cpu_syscall.cpp:168-174 | the same for SBRK |
| `MemoryRuns.RunRemembers` | src/controllers/mips/cpu_mem.cpp:23-133 | after any run of loads, stores and SBRK, every byte is the one last stored, or as it was at first |
| `MemoryRuns.LoadsWhatWasStored` | src/controllers/mips/cpu_mem.cpp:23-69 | so every load delivers the little-endian number last stored in its one, two or four bytes: LB in [-128, 128), LBU in [0, 256), LH and LHU likewise, each equal to that number modulo 2^8, 2^16 or 2^32, and changes nothing but the bounds of the stack |
| `MemoryRuns.StoreChanges` | src/controllers/mips/cpu_mem.cpp:84-133 | a store changes exactly its one, two or four bytes, to those of the register, the lowest first |
| `MemoryRuns.StoredComesBack` | src/controllers/mips/cpu_run.cpp:460-499 | a load behind a store of the same width gives the stored word back if and only if it is in the range of the load |
| `MemoryRuns.GrowthDoubles` | src/controllers/mips/mem.cpp:202-216 | how far the stack grows, and when it may not |
| `MemoryRuns.FaultsOutside` | src/controllers/mips/cpu_mem.cpp:198-216 | an aligned read outside the segments faults unless it is less than 16M below the stack |
| `MemoryRuns.SbrkExtends` | src/controllers/mips/cpu_syscall.cpp:168-174 | SBRK returns the old end of the data; the bytes from there on were unmapped before, and are mapped and zero after |
| `MemoryRuns.ExitsStop` | src/controllers/mips/cpu_syscall.cpp:190-199 | both exits end the run with the state in place |
| `Unaligned.LoadsPart` | src/controllers/mips/cpu_run.cpp:511-615 | which bytes of the register one LWL or LWR at any address fills, with the bytes of memory from that address down or up, and which ones it leaves |
| `Unaligned.StoreLeftAt` | src/controllers/mips/cpu_run.cpp:938-992 | which bytes of memory one SWL stores, and that no other byte changes |
| `Unaligned.StoreRightAt` | src/controllers/mips/cpu_run.cpp:994-1048 | the same for SWR |
| `Unaligned.StoresAnywhere` | src/controllers/mips/cpu_run.cpp:938-1048 | SWL at a + 3 and SWR at a store the word at a and change no other byte, for every alignment |
| `Unaligned.LoadsAnywhere` | src/controllers/mips/cpu_run.cpp:511-615 | LWL at a + 3 and LWR at a deliver the word at a |
| `Unaligned.LoadPairRuns` | src/parser/instruction/asm_code.h:553-561 | the two loads run as instructions: the register gets the word and nothing else changes |
| `Unaligned.StorePairRuns` | src/controllers/mips/cpu_run.cpp:938-1048 | the two stores run as instructions |
| `Unaligned.ComesBack` | src/controllers/mips/cpu_run.cpp:511-615 | a memory with those four bytes loads the word again |
| `TextData.RunCoherent` | src/controllers/mips/cpu_mem.cpp:218-260 | after any stores into occupied text, each slot holds the word that they make, and the instruction that it decodes to |
| `TextData.ReadsText` | src/controllers/mips/cpu_mem.cpp:164-197 | reads of text return the fields of those words, without sign |
| `TextData.TextReadsBack` | src/controllers/mips/cpu_mem.cpp:164-197 | what was stored last is read back |
| `TextData.StoredIsFetched` | src/controllers/mips/cpu_mem.cpp:9-21 | storing an instruction's encoding makes the next fetch return it; for jumps if and only if bit 24 of the target is clear |
| `DataLayout.StoreAtTop` | src/controllers/mips/cpu_mem.cpp:84-97 | a byte stored at the top of the data segment faults, and one below it does not |
| `DataLayout.ItemsDisjoint` | src/controllers/mips/cpu_data.cpp:141-163 | items off $gp do not overlap |
| `DataLayout.ItemsReachable` | src/controllers/mips/cpu_data.cpp:61-70 | each byte of each item is within a signed 16-bit displacement of $gp |
| `DataLayout.DataDirectives.constructor` | src/controllers/mips/cpu_data.cpp:61-70 | where the $gp area and the ordinary data begin, and exactly when the first byte can be stored there |
| `DataLayout.DataDirectives.IncrementDataPc` | src/controllers/mips/cpu_data.cpp:122-137 | the counter stays below the top of the segment, which grows by multiples of 64K |
| `DataLayout.DataDirectives.StoreHalf` | src/controllers/mips/cpu_data.cpp:192-205 | two little-endian bytes at any location |
| `DataLayout.DataDirectives.StoreWord` | src/controllers/mips/cpu_data.cpp:209-222 | four little-endian bytes at any location |
| `DataLayout.DataDirectives.StoreString` | src/controllers/mips/cpu_data.cpp:174-181 | the bytes of a string and its terminator |
| `DataLayout.DataDirectives.StoreAll` | src/controllers/mips/cpu_data.cpp:174-222 | any sequence of directives lays down exactly the concatenation of its bytes, changes no other byte, and fails only near the data limit |
| `DataLayout.DataDirectives.ExternDirective` | src/controllers/mips/cpu_data.cpp:141-152 | a small symbol gets the next place off $gp, and the layout of the items is kept |
| `DataLayout.DataDirectives.LcommDirective` | src/controllers/mips/cpu_data.cpp:156-170 | a small item goes off $gp, a larger one becomes zero bytes of ordinary data |
| `DataLayout.DataDirectives.MakeAddrExpr` | src/controllers/mips/cpu_inst.cpp:79-91 | the address expression denotes symbol plus offset plus register, through $gp or not |
| `SmallData.ItemAccesses` | src/controllers/mips/cpu_inst.cpp:79-91 | in any assembled program, a load or store of any byte of an item off $gp is one instruction, and accesses that byte |
| `Expression.Evaluate` | src/parser/expression/ast.h:182-209 | the loop over the operations is left-to-right evaluation, and the first failure decides |
| `Expression.Print` | src/parser/expression/ast.h:122-141 | the printing loop writes the text that the parsing theorems are about |
| `Expression.PrintThenParse` | src/parser/expression/expression.h:57-78 | printing and parsing again uses up the text and gives a tree of the same value or the same failure |
| `Expression.PrintThenParseExactly` | src/parser/expression/ast.h:93-147 | it does so exactly when no constant of 2^31 or more stands under a unary operator, and is an error otherwise |
| `Expression.LevelGrammatical` | src/parser/expression/expression.h:65-73 | every parsed tree has one level of operators in each expression, from the loosest level down, and unary operators over constants, labels and parentheses only; which operators go first, `Precedence` says |
| `Expression.ParsePrintParse` | src/parser/expression/expression.h:65-73 | so the equivalence holds of every label-free expression parsed from any text |
| `Precedence.FlatHasMeaning` | src/parser/expression/expression.h:65-73 | a text of any number of operators and numbers without parentheses is used up and has the value that comes from splitting it at its loosest operators, the last one first |
| `Precedence.ThreeNumbers` | src/parser/expression/expression.h:65-73 | of two operators the tighter one is worked out first, and of two alike the left one |
| `Precedence.ProductsFirst` | src/parser/expression/expression.h:68-69 | for all words, `a+b*c` is a + b * c modulo 2^32, and so on for - and for products in front |
| `Precedence.QuotientsFirst` | src/parser/expression/expression.h:68-69 | `a+b/c` adds the quotient cut toward zero, and so on |
| `Precedence.ZeroDivisor` | src/parser/expression/ast.h:195-197 | `a+b/0` fails as a whole |
| `Precedence.SumsBeforeAnd` | src/parser/expression/expression.h:67-68 | `a&b+c` has the digits that a shares with the sum |
| `Precedence.AndBeforeOr` | src/parser/expression/expression.h:66-67 | `&` before the inclusive or: the digits of a and those that b and c share |
| `Precedence.LeftToRight` | src/parser/expression/expression.h:68 | `a-b-c` is (a - b) - c |
| `Precedence.QuotientThenProduct` | src/parser/expression/expression.h:69 | `a/b*c` is the quotient times c |
| `Precedence.Apply2Is` | src/parser/expression/ast.h:185-207 | a binary operator has exactly the value that it means: sums and products modulo 2^32, the one quotient whose remainder is smaller than the divisor and has the sign of the dividend, and digits |
| `Precedence.Apply2Fails` | src/parser/expression/ast.h:195-197 | it fails exactly for a zero divisor and for INT_MIN / -1, which C leaves undefined |
| `Precedence.MinusUndoesPlus` | src/parser/expression/ast.h:185-194 | a - b + b and a + b - b are a |
| `Precedence.Apply1Is` | src/parser/expression/ast.h:161-174 | the unary operators: the number, the one that it makes 0 with, and the opposite digits |
| `Precedence.UnaryTwice` | src/parser/expression/ast.h:161-174 | each of them undoes itself |
| `Numerals.PrefixedParses` | src/parser/expression/expression.h:71-72 | behind `0x` and `0b` a numeral of any length, in either case of letters, is the constant of its value if that fits 32 bits, and an error otherwise |
| `Numerals.DecimalNumeral` | src/parser/expression/ast.h:93-119 | constants print as numerals of their value |

## Left out

- Floating point: registers, loads, stores, arithmetic, comparisons and condition codes.
- Delayed branches: a nested step from a branch would fetch the branch itself again (`src/controllers/mips/cpu_run.cpp:117-124`).
- Release 2 opcodes, MOVF and MOVT, coprocessor branches, CFC0, CTC0, CFC2 and CTC2.
- Growth of the kernel data segment, whose zeroing loop clears part of the old data (`src/controllers/mips/mem.cpp:269-273`).
- Memory-mapped I/O, console, files, all system calls but SBRK and the exits, interrupts, breakpoints, profiling counts, and all printing but that of expressions.
- Assembly into the kernel text segment, and of instructions into data segments.
- Data words that wait for a label (`src/controllers/mips/sym-tbl.cpp:103-109`), local label lists, and the resolution of uses by `.lcomm` of a name that was used before.
- Uses are slot numbers instead of pointers to instructions, and every instruction has its own expression, so sharing and aliasing of instruction objects are not captured.
- The fields of an instruction are separate: the overlay of rd, shamt and immediate in the source's union is not captured.
- Signed overflow in rounding up a size near INT_MAX.
- ROUND_UP of text sizes, and vectors resized twice by `make_memory`.
- The error messages printed for immediates that do not fit, and for jumps across a region.
- Keywords are a set of names: the keyword tables, whose entries may contain dots, are a parameter of the grammar.
- The directive grammar and the parser actions that call the assembler.
- `Programs.AssemblyCorrect`: programs hold no labels in the $gp area (their accesses reach it through `MakeAddrExpr` as displacements off $gp, which `SmallData.ItemAccesses` is about), no trap on a wide constant, which ends the assembly, no LUI of a wide or later operand on top of a source register, which does too, and `pc`-relative expressions in branches only.
- `Programs.DoPreserves`: the same programs.
- `Assembler.Assembler.AssembleAll`: the same programs, from an empty segment or any text without labels in the $gp area.
- `Assembler.Assembler.RecordInstUsesSymbol`: uses by data words and by instructions in data segments are omitted.
- `Assembler.Assembler.StoreInstruction`: data segments and the kernel text segment are omitted.
- `Assembler.Assembler.ResolveALabelSub`: data words that wait for a label are omitted.
- `Assembler.Assembler.ResolveLabelUses`: uses in data segments are omitted.
- `Assembler.Assembler.CompensateHighHalf`: looking back from the first two slots reads below the text segment, where `src/controllers/mips/cpu_mem.cpp:137-143` also raises an instruction bus error; that change of EXL, EPC, the cause word and BadVAddr before the program runs is omitted.
- `Cpu.Machine.BadMemRead`: addresses of memory-mapped I/O are bus errors here.
- `Cpu.Machine.BadMemWrite`: likewise.
- `Cpu.Machine.DoSyscall`: calls with input or output, which are reported as failures.
- `Cpu.Machine.RunProgram`: `run_program` is declared at `src/controllers/mips/cpu.h:131`, and its body is not part of this model; breakpoints and the display are omitted.
- `DataLayout.DataDirectives.constructor`: addresses beyond the data segment.
- `DataLayout.DataDirectives.IncrementDataPc`: the counter of the kernel data segment is omitted.
- `DataLayout.DataDirectives.LcommDirective`: names that already have an entry or uses.
- `Exceptions.HandlerKeepsEpc`: handlers entered with a pending interrupt or the branch-delay bit in the cause word, where `Exceptions.SecondException` shows EPC to move.
- `Compilation.ProgramComputes`: excludes $at as the source register, which the expansion overwrites, and overflowing ADDI, which raises an exception.
- `Compilation.ProgramAccesses`: excludes $at as the base register; a store from $at stores what the expansion left there.
- `DelayedLoads.DelayedLoadsSimulate`: BREAK with code 1 returns before the PC is advanced, in both machines.
- `TextData.RunCoherent`: slots of the user text segment that hold an instruction; the source dereferences a null pointer for bytes and halves of empty ones.
