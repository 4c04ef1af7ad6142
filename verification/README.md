# PureOS kernel model

PureOS is an x86_64 kernel without a heap: its state sits in fixed tables that are updated in place.
This project models six of its parts in Dafny and proves what they are for.

1. **The Barrel native compiler** (`Words`, `X86`, `Machine`, `Barrel*`, `Codegen`, `*Simulation`,
   `JumpTargets`, `ProgramCorrectness`, `Compiler*`, `Interpreter`, `Elf`, `CompileAndRun`, `ProcessMemory`,
   `SourceCorrectness`).
   A token grammar with a printer, a semantics with wrapping 64-bit arithmetic and a trace of prints,
   and a machine that decodes and runs bytes. `Compiler.Comp` is the one-pass compiler itself, with its
   buffer, variable table and list of open breaks. The chain ends in
   `SourceCorrectness.ProcessMeaning`, from source text to the behaviour of the process that is started.
2. **Process table, rendezvous IPC and scheduler** (`Ipc`, `IpcInvariant`, `IpcLaws`, `IpcRuns`, `Kernel`).
   `Ipc` is a transition system over 64 slots, each with its own memory; `Kernel.ProcessManager` is the
   table with the system calls as the kernel runs them, each proved to be one step of that system.
3. **Physical memory** (`Frames`, `PageTables`, `PageMapping`, `Regions`, `SharedRoots`, `Layers`, `Loader`,
   `Lifetimes`). The intrusive free list, the four-level tables, the bump layer and the ELF loader share one
   physical memory.
   `PageTables.Walk` is the processor's translation (AMD64 Architecture Programmer's Manual, Volume 2, section 5.3).
4. **The RAM file system** (`RamTree`, `RamPaths`, `RamFs`), for any number of nodes and any pool size.
5. **The SMP work queue** (`WorkQueue`): all interleavings of single reads and writes of one producer
   and one consumer.
6. **Line drawing** (`Line`).

`dafny verify dfyconfig.toml` checks everything.

## Where the code does not do what one would expect

- `draw_line` overflows its 32-bit error variable on long steep lines although all coordinates are
  below 2^31: `err -= dy` can leave the range before `err += dx` brings it back. A build that checks
  overflow stops there; a build that wraps still draws the right line. `Line.OverflowExactly` gives the
  exact condition in terms of the two distances, `Line.DiagonalOverflows` an example.
- `memory_allocate` rounds the size up in wrapping arithmetic: a size above 2^64 - 4096 succeeds with an
  empty range, even when no frame is left (`Layers.MemoryManager.MemoryAllocate`).
- The memory it returns is zero but for the first word of each page, where `track_frame` has put its link
  to the process's previous frame.
- The layer of an ELF process begins with its code page, so its first allocation replaces the code
  (`Lifetimes.AllocateAfterExec`).
- An ELF process has no list of its frames, so they are not freed when it ends (`Lifetimes.ElfLifetime`).
- Page tables are never freed, whatever process they were built for (`Lifetimes.Lifetime`).
- A new process shares the tables below its copied root. What is mapped in it appears in its creator too,
  exactly where the creator's root has an entry: an ELF process that calls `exec` finds the new program
  at its own load address (`Lifetimes.ExecFromElf`, `Lifetimes.CallerKeepsPages`).
- `free_frame` does not notice a frame that is free already; the free list then has no end
  (`Frames.FreeingTwice`).
- `write` compares a length truncated to 32 bits with the capacity (`RamFs.FileSystem.Write`).
- `map_page` does not add write permission to tables that exist, so a writable page is writable only as
  far as those tables grant it (`PageTables.Granted`; `PageMapping.WithheldWrite` is an example).
- A closing brace at top level makes the compiler loop forever (`Compiler.Compile`, verdict `Hangs`;
  `SourceCorrectness.BraceHangs`).
- Names that hold a slash, or are "." or "..", can be created but never reached by a path
  (`RamTree.ReachesClean`, `RamTree.DotUnreachable`).
- The links of the tracked-frame list lie in memory that the process can write. `LinksIntact` is
  therefore an explicit precondition of `FreeProcessFrames`, and `Layers.LinksExactly` says that it
  holds exactly while those words are unchanged.

## Model

| member | source | states |
|---|---|---|
| `SourceCorrectness.SourceMeaning` | kernel/src/barrelc.rs:306-544 | For every accepted source, every kernel and every initial stack contents: the emitted bytes exit having printed `out` iff the source program ends having printed `out`, run forever iff it does, never fault, and keep rsp in the frame |
| `SourceCorrectness.ProcessMeaning` | kernel/src/barrelc.rs:591-621 | In the address space built for an accepted source, on pages with frames of their own, user code finds the compiled bytes at the entry point through the page tables, running them prints exactly what the source prints when every variable starts at zero, and at every step the memory the machine sees is what the page tables give it, with nothing but the stack's frames changed |
| `ProcessMemory.RunsInPlace` | kernel/src/elf.rs:134-171 | For every number of steps: the machine's memory is realised by one physical memory that differs from the first in the stack's frames only; code and translations stay |
| `ProcessMemory.StoreSeen` | kernel/src/elf.rs:155-171 | A store through the page tables changes the stack word it names and no other word or code byte that the process sees |
| `ProcessMemory.StepStores` | kernel/src/barrelc.rs:255-300 | An emitted instruction stores at most one word, and only where there is stack |
| `SourceCorrectness.AcceptedProgram` | kernel/src/barrelc.rs:403-544 | An accepted source is the printed form of exactly one grammatical program, and that program fits the compiler's limits |
| `SourceCorrectness.InterpreterAgrees` | kernel/src/barrel.rs:567-577 | Wherever a closed expression stands in the token array, with any token behind it that does not continue it, the interpreter moves behind it and returns what the compiled code leaves in rax, the AST's value mod 2^64; rsp, rbp and the locals are kept |
| `SourceCorrectness.ClosedRuns` | kernel/src/barrelc.rs:306-397 | The compiled half of that comparison |
| `SourceCorrectness.EveryProgramHasText` | kernel/src/barrelc.rs:116-182 | Every grammatical program within the limits, with names that can be written, has a source the compiler accepts as that program |
| `SourceCorrectness.BraceHangs` | kernel/src/barrelc.rs:483-483 | A source that is one closing brace is never consumed |
| `SourceCorrectness.AcceptedIsLayout` | kernel/src/barrelc.rs:116-182 | A source is accepted as a program iff it writes that program's tokens down one after the other, with any blanks and comments between them and any spelling of its numbers, and the program is grammatical and within the limits |
| `BarrelText.LayoutLexes` | kernel/src/barrelc.rs:116-182 | Lexing words that spell tokens, with blanks and comments around them, gives those tokens; behind a NUL or in an unfinished comment nothing is read, and a character that starts no token is rejected |
| `BarrelText.CommentSkipped` | kernel/src/barrelc.rs:119-120 | A comment up to and with its newline changes nothing, whatever it contains and whatever follows |
| `BarrelText.BlankSkipped` | kernel/src/barrelc.rs:121-122 | A space, tab, newline or carriage return changes nothing |
| `BarrelText.TokenRead` | kernel/src/barrelc.rs:130-182 | A word that spells a token, followed by a byte that does not continue it, is read as that token |
| `BarrelText.DecimalIs` | kernel/src/barrelc.rs:138-146 | Digits of any number are read as their value modulo 2^64 |
| `BarrelText.ClassesAgree` | kernel/src/barrelc.rs:121-150 | Digits, letters with the underscore, and blanks are the characters one expects |
| `BarrelText.LexShift` | kernel/src/barrelc.rs:116-182 | What is read from a position on does not depend on what is before it |
| `BarrelLayout.EveryTextIsLayout` | kernel/src/barrelc.rs:116-182 | Every byte string is a layout of some tokens, so the law of layouts covers all sources |
| `BarrelLayout.LexedIsLayout` | kernel/src/barrelc.rs:116-182 | A text lexes to given tokens iff it is a layout of them |
| `BarrelLayout.TextRoundTrip` | kernel/src/barrelc.rs:130-182 | Lexing undoes spelling, for every sequence of tokens |
| `BarrelText.KeywordTable` | kernel/src/barrelc.rs:155-165 | A name that is not a keyword is an identifier |
| `BarrelText.KeywordSpelled` | kernel/src/barrelc.rs:155-165 | The letters of each keyword are read as that keyword |
| `ProgramCorrectness.CompiledCorrect` | kernel/src/barrelc.rs:306-544 | Compilation preserves termination, divergence and the sequence of prints, for every program within the limits |
| `ProgramCorrectness.TracesAgree` | kernel/src/barrelc.rs:519-544 | Also for programs that run forever: every prefix of the source's output is printed, and nothing else is |
| `ProgramCorrectness.ProgramFollows` | kernel/src/barrelc.rs:509-544 | For every amount of fuel the machine reaches the state the source semantics has reached, without fault and inside its frame |
| `ProgramCorrectness.ImageDecodes` | kernel/src/barrelc.rs:220-293 | Decoding the emitted bytes gives back the intended instructions, and every je/jmp lands on an instruction not past the exit sequence |
| `ProgramCorrectness.StackSuffices` | kernel/src/barrelc.rs:34-42 | Saved rbp, locals and one word per emitted byte fit 64 KiB for every program that fits the buffer |
| `ProgramCorrectness.PrologueRuns` | kernel/src/barrelc.rs:509-517 | The prologue leaves rsp = rbp - 256 and every variable equal to what the frame held |
| `ProgramCorrectness.EpilogueRuns` | kernel/src/barrelc.rs:531-535 | The exit sequence ends the run with the output printed so far |
| `ExprSimulation.ExprRuns` | kernel/src/barrelc.rs:306-397 | An expression's code puts its value mod 2^64 in rax, never leaves the frame and restores rsp, rbp and memory above rsp |
| `ExprSimulation.DivRuns` | kernel/src/barrelc.rs:278-293 | Division takes the zero branch exactly for a zero divisor; the result is 0 then and the quotient otherwise |
| `ExprSimulation.CompareRuns` | kernel/src/barrelc.rs:294-299 | Comparisons are unsigned and yield 0 or 1 |
| `ExprSimulation.DepthBelowSize` | kernel/src/barrelc.rs:308-371 | Pending pushes of an expression are fewer than its emitted bytes |
| `StmtSimulation.StmtRuns` | kernel/src/barrelc.rs:403-486 | A statement's code does what the statement does, for every fuel; `break` reaches the end of the innermost loop |
| `StmtSimulation.BlockRuns` | kernel/src/barrelc.rs:499-505 | The same for blocks |
| `StmtSimulation.LetRuns` | kernel/src/barrelc.rs:406-415 | Assignment changes that variable's slot and no other |
| `StmtSimulation.PrintRuns` | kernel/src/barrelc.rs:416-422 | Printing appends one (value, newline) pair and survives the registers the kernel clobbers |
| `StmtSimulation.IfElseRuns` | kernel/src/barrelc.rs:423-443 | Exactly one branch of a conditional runs |
| `StmtSimulation.WhileRuns` | kernel/src/barrelc.rs:444-459 | A loop runs its body as long as the condition holds, and a break leaves it |
| `JumpTargets.StmtLands` | kernel/src/barrelc.rs:423-497 | Every jump of a statement lands on an instruction boundary of the statement, or on its end, or where its break goes |
| `Codegen.SizeOfB` | kernel/src/barrelc.rs:499-505 | The emitted size of a block does not depend on slots or jump distances |
| `BarrelSemantics.TerminatesOrDiverges` | kernel/src/barrelc.rs:403-544 | A program either ends, with one output, or runs forever |
| `BarrelSemantics.MoreFuelB` | kernel/src/barrelc.rs:403-544 | More fuel never changes a finished run and only extends the output of an unfinished one |
| `BarrelSemantics.NoStrayBreakB` | kernel/src/barrelc.rs:471-482 | A break outside a loop does nothing |
| `BarrelGrammar.ProgramRoundTrip` | kernel/src/barrelc.rs:306-505 | The parser accepts exactly the printed forms of grammatical programs and inverts the printer |
| `BarrelGrammar.StmtPrinted` | kernel/src/barrelc.rs:403-486 | Parsing a printed statement gives it back and stops at its end |
| `BarrelGrammar.StmtParsedPrints` | kernel/src/barrelc.rs:403-486 | What is parsed as a statement is the printed form of that statement |
| `BarrelGrammar.SimpleForms` | kernel/src/barrelc.rs:403-422 | The token forms of the simple statements, written out: `print` has no newline and `println` has one |
| `BarrelGrammar.BlockForms` | kernel/src/barrelc.rs:423-470 | The token forms of the statements with blocks, written out |
| `BarrelRules.WhileRule` | kernel/src/barrelc.rs:444-459 | Without fuel, in both directions: a while loop ends when its condition is zero, and otherwise runs its body and starts over unless the body broke out |
| `BarrelRules.LoopRule` | kernel/src/barrelc.rs:460-470 | The same for loop |
| `BarrelRules.IfElseRule` | kernel/src/barrelc.rs:423-443 | Exactly the branch that the condition selects |
| `BarrelRules.IfRule` | kernel/src/barrelc.rs:423-443 | The same without an else branch |
| `BarrelRules.ThenRule` | kernel/src/barrelc.rs:499-505 | What follows a statement happens iff the statement ended normally, from the store it left |
| `BarrelRules.PrintRule` | kernel/src/barrelc.rs:416-422 | Printing does one thing |
| `BarrelRules.LetRule` | kernel/src/barrelc.rs:406-415 | Assignment changes one variable |
| `BarrelRules.BreakRule` | kernel/src/barrelc.rs:471-482 | A break leaves the innermost loop, and does nothing outside loops |
| `BarrelRules.EmptyRule` | kernel/src/barrelc.rs:405-405 | The empty statement does nothing |
| `BarrelRules.DoneRule` | kernel/src/barrelc.rs:499-505 | Neither does the end of a block |
| `BarrelRules.ProgramRule` | kernel/src/barrelc.rs:537-544 | A program ends with an output exactly if these rules give it that output |
| `X86.DecodeEncode` | kernel/src/barrelc.rs:255-300 | Decoding an encoded instruction at any position gives back that instruction and its length |
| `Words.Le64RoundTrip` | kernel/src/barrelc.rs:238-242 | Reading back a 64-bit little-endian immediate |
| `Words.Signed32RoundTrip` | kernel/src/barrelc.rs:243-251 | Reading back a signed 32-bit displacement |
| `Compiler.Compile` | kernel/src/barrelc.rs:591-607 | Compiles exactly the accepted sources, leaving the program's image behind the headers; never returns exactly on an unmatched closing brace at top level; otherwise it fails with one of three codes, and with the syntax error only if the tokens do not parse, so a grammatical source beyond a limit gets a limit code |
| `CompilerErrors.Sequence` | kernel/src/barrelc.rs:184-190 | One parser after the other: the first error is kept, and it is a syntax error only where the whole cannot be parsed |
| `CompilerErrors.LoopTurns` | kernel/src/barrelc.rs:308-371 | The same for one turn of an operator loop |
| `CompilerErrors.StmtsTurn` | kernel/src/barrelc.rs:499-505 | The same for one statement of a list |
| `CompilerErrors.AnyOperand` | kernel/src/barrelc.rs:335-371 | Where the operands of a level end does not depend on the first one |
| `Compiler.Comp.SkipWs` | kernel/src/barrelc.rs:116-128 | Stops where the specified lexer does: at the first character that is neither blank nor in a comment, as `BarrelText.CommentSkipped` and `BlankSkipped` say |
| `Compiler.Comp.Next` | kernel/src/barrelc.rs:130-182 | Moves to the next token of the source's token list, or fails on a bad one |
| `Compiler.Comp.Eat` | kernel/src/barrelc.rs:184-186 | Consumes the token iff it is the expected one |
| `Compiler.Comp.VarSlot` | kernel/src/barrelc.rs:195-210 | Slots are numbered in order of first occurrence; a 33rd variable is an error |
| `Compiler.Comp.Emit` | kernel/src/barrelc.rs:220-228 | Appends one byte to the code, or fails when the buffer is full |
| `Compiler.Comp.EmitBytes` | kernel/src/barrelc.rs:230-242 | Appends the bytes in order, or fails |
| `Compiler.Comp.Patch32` | kernel/src/barrelc.rs:243-251 | Rewrites exactly four bytes of the code |
| `Compiler.Comp.OpDiv` | kernel/src/barrelc.rs:278-293 | After both patches the code is that of division |
| `Compiler.Comp.OpCmpSet` | kernel/src/barrelc.rs:294-299 | Appends the code of the comparison |
| `Compiler.Comp.Cmp` | kernel/src/barrelc.rs:308-333 | Parses the longest expression and appends its code, or fails where the grammar or a limit does |
| `Compiler.Comp.Add` | kernel/src/barrelc.rs:335-352 | The same for sums |
| `Compiler.Comp.Mul` | kernel/src/barrelc.rs:354-371 | The same for products |
| `Compiler.Comp.Atom` | kernel/src/barrelc.rs:373-397 | The same for atoms |
| `Compiler.Comp.Stmt` | kernel/src/barrelc.rs:403-486 | Parses one statement and appends its code with its breaks still open; consumes nothing on a closing brace |
| `Compiler.Comp.StmtIf` | kernel/src/barrelc.rs:423-443 | The same for conditionals, with both jumps patched |
| `Compiler.Comp.StmtWhile` | kernel/src/barrelc.rs:444-459 | The same for while, with the exit, the back jump and the breaks patched |
| `Compiler.Comp.StmtLoop` | kernel/src/barrelc.rs:460-470 | The same for loop |
| `Compiler.Comp.StmtBreak` | kernel/src/barrelc.rs:471-482 | Records the site of the jump; outside a loop the jump keeps distance 0 |
| `Compiler.Comp.CloseBreaks` | kernel/src/barrelc.rs:489-497 | Patches every recorded break above the base, and forgets them |
| `Compiler.Comp.Block` | kernel/src/barrelc.rs:499-505 | Parses statements up to the closing brace |
| `Compiler.Comp.Program` | kernel/src/barrelc.rs:537-544 | The whole program between prologue and exit, or the state in which it loops forever |
| `CompilerSpec.DeclareBGrows` | kernel/src/barrelc.rs:195-210 | Declarations only add names, without repetition |
| `CompilerSpec.TailStep` | kernel/src/barrelc.rs:335-371 | One turn of an operator loop keeps the expression parsed so far equal to the code emitted so far |
| `CompilerStmts.PatchBlock` | kernel/src/barrelc.rs:488-497 | Patching the recorded breaks of a block turns its code with open breaks into its code with breaks at the given distance |
| `CompilerPass.StmtsParsed` | kernel/src/barrelc.rs:499-505 | The one-pass statement loop computes the two-step "parse, then generate code" |
| `CompilerPass.IfParsed` | kernel/src/barrelc.rs:423-443 | The same for conditionals |
| `CompilerPass.WhileParsed` | kernel/src/barrelc.rs:444-459 | The same for while |
| `CompilerPass.LoopParsed` | kernel/src/barrelc.rs:460-470 | The same for loop |
| `CompilerPass.DivPatched` | kernel/src/barrelc.rs:278-293 | The two patches of a division give its instruction list |
| `Compiler.Comp.Fail` | kernel/src/barrelc.rs:188-190 | The first error is kept |
| `Compiler.Comp.MovRaxImm` | kernel/src/barrelc.rs:255-258 | Appends that instruction |
| `Compiler.Comp.PushRax` | kernel/src/barrelc.rs:259-259 | Appends that instruction |
| `Compiler.Comp.PopRax` | kernel/src/barrelc.rs:260-260 | Appends that instruction |
| `Compiler.Comp.MovRcxRax` | kernel/src/barrelc.rs:261-261 | Appends that instruction |
| `Compiler.Comp.LoadLocal` | kernel/src/barrelc.rs:263-267 | Appends the load of that slot |
| `Compiler.Comp.StoreLocal` | kernel/src/barrelc.rs:268-272 | Appends the store to that slot |
| `Compiler.Comp.OpAdd` | kernel/src/barrelc.rs:275-275 | Appends the code of addition |
| `Compiler.Comp.OpSub` | kernel/src/barrelc.rs:276-276 | Appends the code of subtraction |
| `Compiler.Comp.OpMul` | kernel/src/barrelc.rs:277-277 | Appends the code of multiplication |
| `Compiler.Comp.OpNeg` | kernel/src/barrelc.rs:300-300 | Appends the code of negation |
| `Compiler.Comp.EmitPrologue` | kernel/src/barrelc.rs:509-517 | Appends the prologue |
| `Compiler.Comp.EmitPrint` | kernel/src/barrelc.rs:519-529 | Appends the code of a print call |
| `Compiler.Comp.EmitExit` | kernel/src/barrelc.rs:531-535 | Appends the exit sequence |
| `Compiler.Comp.StmtLet` | kernel/src/barrelc.rs:406-415 | Parses an assignment and appends its code; the slot is claimed before the right-hand side is parsed |
| `Compiler.Comp.StmtPrint` | kernel/src/barrelc.rs:416-422 | Parses a print and appends its code |
| `Compiler.Comp.StmtElse` | kernel/src/barrelc.rs:430-442 | Patches the conditional jump behind the jump over the else branch, and that jump behind the branch |
| `Compiler.Comp.StmtFlow` | kernel/src/barrelc.rs:423-482 | Parses one of the statements that jump and appends its code |
| `Compiler.Comp.AtomParen` | kernel/src/barrelc.rs:385-389 | Parses a parenthesised expression, with its closing parenthesis, and appends its code |
| `Compiler.Comp.AtomNeg` | kernel/src/barrelc.rs:390-394 | Parses a negated atom and appends its code |
| `Elf.WriteElfHeaders` | kernel/src/barrelc.rs:557-587 | Writes both headers byte for byte and leaves the code alone |
| `Elf.HeadersReadBack` | kernel/src/elf.rs:57-92 | The loader reads back the fields the compiler wrote |
| `Elf.ReadHeader` | kernel/src/elf.rs:57-76 | A compiled file passes the header checks |
| `Elf.FindRange` | kernel/src/elf.rs:78-98 | The first pass finds one page at the load address |
| `Loader.Exec` | kernel/src/elf.rs:57-184 | Succeeds iff there is a free slot, no large page is in the way and there are frames for 17 pages and their missing tables; exact error codes; the process then sees the file at the load address and 64 KiB of stack through its page tables, each page user-writable in a fresh frame of its own that nobody tracks, so the allocator is short of exactly the frames needed; of the memory in use only tables change; the caller keeps its pages outside the range, and inside it sees the new image exactly if its root has an entry there |
| `Loader.Load` | kernel/src/elf.rs:101-184 | The same behind the checks |
| `Loader.Prepare` | kernel/src/elf.rs:100-109 | The new root is a copy of the current one with an empty list of frames; the range needs as many frames in the copy |
| `Loader.LoadSegments` | kernel/src/elf.rs:112-152 | The file's page is mapped and holds the file |
| `Loader.CopyToFrame` | kernel/src/elf.rs:219-223 | The frame begins with the copied bytes; no other frame changes |
| `Loader.AllInPlace` | kernel/src/elf.rs:134-171 | Reading through the tables gives the file's bytes, and stack words that are zero but for the first of each page |
| `Loader.FramesForgotten` | kernel/src/syscall.rs:415-445 | Frames of a provisioned ELF process are held, distinct, behind its pages and on no list; its tables exist, are on no list and withhold no write permission |
| `Loader.PagesOwned` | kernel/src/elf.rs:134-171 | Every page of the image has a frame of its own that is no table |
| `Loader.CallerSees` | kernel/src/elf.rs:105-171 | Through the caller's root: pages outside the range as before; in the range the image if the root has an entry for it, else nothing |
| `CompileAndRun.CompileAndLoad` | kernel/src/barrelc.rs:591-621 | Compilation, headers and loading in one: a process exactly for accepted sources with a slot and enough frames, and it sees the image of the parsed program |
| `Interpreter.EvalExpr` | kernel/src/barrel.rs:567-577 | From any cursor at which an expression stands, followed by no operator: its value in the given environment, with all operators of the interpreter and with numbers typed in on the way, and the cursor right behind it |
| `Interpreter.EvalShared` | kernel/src/barrel.rs:567-577 | On the compiler's expressions without variables that value is the one of the compiler's semantics |
| `Interpreter.EvalCmp` | kernel/src/barrel.rs:579-637 | Comparisons and logic, whatever stands at the cursor: the value of the expression read and the cursor behind it |
| `Interpreter.Combined` | kernel/src/barrel.rs:588-632 | Each branch for a comparison or a logical operator gives that operator's value |
| `Interpreter.EvalAdd` | kernel/src/barrel.rs:639-663 | The same for sums |
| `Interpreter.EvalMul` | kernel/src/barrel.rs:665-694 | The same for products, quotients and remainders |
| `Interpreter.EvalAtom` | kernel/src/barrel.rs:696-762 | The same for atoms: literals, names, input, parentheses, negation and inversion |
| `Interpreter.ReadsWritten` | kernel/src/barrel.rs:579-762 | An expression written down is read as itself, with the interpreter's precedences and to the left |
| `Interpreter.LevelTable` | kernel/src/barrel.rs:588-680 | Logic binds like comparisons, the remainder like products |
| `Interpreter.OperatorLaws` | kernel/src/barrel.rs:603-690 | Quotient and remainder make up the dividend, both are 0 for a zero divisor, and logic is that of zero and not zero |
| `Interpreter.LiftedEval` | kernel/src/barrel.rs:579-762 | On the compiler's closed expressions both semantics agree |
| `IpcRuns.SendReturnsAnswered` | kernel/src/syscall.rs:721-750 | Over every run: a send returns only after its message was delivered exactly once to the target and exactly one reply of that target was delivered back, in this order and with nothing else about the sender in between |
| `IpcLaws.SendLaw` | kernel/src/syscall.rs:721-750 | Which table gives which answer and which table afterwards: errors, direct delivery to a waiting receiver with its 64 bytes, or blocking, and who runs next |
| `IpcLaws.ReceiveLaw` | kernel/src/syscall.rs:752-783 | The lowest-numbered blocked sender is taken and returned, its bytes are in the buffer and it waits for a reply; without one the caller blocks |
| `IpcLaws.ReplyLaw` | kernel/src/syscall.rs:785-810 | Errors by the old table; otherwise the waiting process runs with the bytes in its buffer and nothing else changes |
| `IpcLaws.ExitLaw` | kernel/src/syscall.rs:683-696 | The caller's slot is exited, no other entry changes, and the next runnable slot gets the CPU or the machine halts |
| `IpcLaws.SwitchLaw` | kernel/src/syscall.rs:1290-1298 | The CPU goes to the first runnable slot in cyclic order after the current one, or the machine halts because there is none |
| `IpcRuns.ExitedStays` | kernel/src/syscall.rs:683-696 | Over every run: an exited slot stays exited and is not given the CPU until a process is born in it |
| `IpcRuns.EventsAreCopies` | kernel/src/syscall.rs:721-810 | What a step logs is what it copied: the 64 bytes at the caller's pointer are in the receiver's buffer |
| `IpcRuns.OnlyTheReplyWakes` | kernel/src/syscall.rs:671-681 | A process that waits for a reply is left alone by every step but its death and that reply, whose bytes it then holds |
| `IpcRuns.ReceiveReturnsSender` | kernel/src/syscall.rs:752-783 | A receive returns the process whose message was delivered last |
| `IpcRuns.SafeRuns` | kernel/src/syscall.rs:721-810 | In every reachable state: the running process is runnable, no rendezvous is lost, blocked buffers lie in their own layers |
| `IpcRuns.SecondLooksSucceed` | kernel/src/syscall.rs:764-767 | The second validations of stored buffers (also in send and reply) never fail |
| `IpcRuns.ReachableInv` | kernel/src/syscall.rs:643-810 | Every step keeps the invariant |
| `IpcRuns.BoundedWaiting` | kernel/src/syscall.rs:1290-1298 | A process that stays runnable is passed over by fewer than MAX_PROCESSES - 1 scheduling decisions |
| `IpcRuns.DecisionApproaches` | kernel/src/syscall.rs:1290-1298 | Each decision runs the process or brings it strictly closer |
| `IpcInvariant.StepInv` | kernel/src/syscall.rs:643-810 | One step of any kind keeps the invariant |
| `IpcInvariant.InitialInv` | kernel/src/syscall.rs:214-242 | The table after initialisation satisfies it |
| `Kernel.ProcessManager.constructor` | kernel/src/syscall.rs:214-242 | One runnable process, all other slots empty |
| `Kernel.ProcessManager.NextRunnableAfter` | kernel/src/syscall.rs:1290-1298 | The first runnable slot in cyclic order after the current one, none iff no slot is runnable |
| `Kernel.ProcessManager.SwitchAway` | kernel/src/syscall.rs:671-681 | Gives the CPU to that slot, or halts |
| `Kernel.ProcessManager.CopyUserMessage` | kernel/src/syscall.rs:1313-1332 | The byte loop copies exactly the message and changes no other byte |
| `Kernel.ProcessManager.SendIpc` | kernel/src/syscall.rs:721-750 | Refines the send step and keeps the invariant; answer and new table are given in terms of the old table alone |
| `Kernel.ProcessManager.ReceiveIpc` | kernel/src/syscall.rs:752-783 | Refines the receive step; the answer is the lowest-numbered process that was blocked sending to the caller, which then waits for the reply; it suspends iff there was none |
| `Kernel.ProcessManager.ReplyIpc` | kernel/src/syscall.rs:785-810 | Refines the reply step; answer and new table are given in terms of the old table alone |
| `Kernel.ProcessManager.YieldCpu` | kernel/src/syscall.rs:661-667 | Refines the yield step: the table stays and the next runnable slot runs |
| `Kernel.ProcessManager.ExitProcess` | kernel/src/syscall.rs:683-696 | Refines the exit step: the slot is exited, all others are untouched, the next runnable slot runs or the machine halts |
| `Kernel.ProcessManager.KillProcess` | kernel/src/syscall.rs:700-715 | Refines the kill step; true iff another live process was named |
| `Kernel.ProcessManager.FindFreeSlot` | kernel/src/syscall.rs:374-382 | The lowest slot from 1 on that is not live |
| `Kernel.ProcessManager.CreateProcess` | kernel/src/syscall.rs:512-521 | The new process is runnable in the lowest free slot; no capacity iff there is none |
| `Kernel.ProcessManager.Resume` | kernel/src/syscall.rs:748-750 | What a suspended call returns once its process runs again |
| `Frames.FramePool.Init` | kernel/src/frame.rs:78-91 | The pool is the whole frames between the aligned base and the end; nothing is held |
| `Frames.FramePool.AllocFrame` | kernel/src/frame.rs:102-116 | A zeroed frame that was not held, and one fewer to be had; none iff every frame of the pool is held; the partition is kept |
| `Frames.FramePool.FreeFrame` | kernel/src/frame.rs:94-98 | Any aligned address becomes the head of the free list; for a held frame the allocator stays in order and has one frame more; 0 and unaligned addresses are ignored |
| `Frames.FramePool.PoolSum` | kernel/src/frame.rs:58-76 | Held frames and those that can be had make up the pool |
| `Frames.FreeingTwice` | kernel/src/frame.rs:94-98 | Freeing a frame leaves a list exactly when it was not on the list already |
| `Frames.ExhaustedIs` | kernel/src/frame.rs:102-116 | No frame can be had exactly when every frame is held |
| `Frames.FramePool.PoolStats` | kernel/src/frame.rs:32-55 | Frames handed out at least once are the held and the free-listed ones |
| `Frames.FramePool.RealStats` | kernel/src/frame.rs:58-76 | Counts exactly the held frames and all others of the pool |
| `Frames.PoolCount` | kernel/src/frame.rs:44-54 | The pool has as many frames as its size divided by the frame size |
| `Frames.LinkedUnique` | kernel/src/frame.rs:63-67 | A chain of links has one end: it denotes one list |
| `PageMapping.MapPage` | kernel/src/cpu.rs:240-273 | On success the page is translated to the frame with the requested rights (write permission as far as existing tables grant it); on success or failure every other page keeps translation and effective rights; succeeds iff no large page is in the way and the allocator has as many frames as tables are missing; keeps the tree |
| `PageMapping.NextTable` | kernel/src/cpu.rs:278-295 | Finds, creates or opens the next table without changing any page; fails iff the entry is a large page or a frame is needed and there is none; new tables come from the allocator, no other frame changes |
| `PageMapping.CreateWalk` | kernel/src/cpu.rs:279-285 | A new table changes no walk but its own |
| `PageMapping.CreateTree` | kernel/src/cpu.rs:279-285 | A new table keeps the tree and all pages |
| `PageMapping.RaiseWalk` | kernel/src/cpu.rs:286-293 | Raising the user bit of a table changes no page: every user page already had an all-user path |
| `PageMapping.RaiseTree` | kernel/src/cpu.rs:286-293 | Raising the user bit keeps the tree |
| `PageMapping.LeafWritten` | kernel/src/cpu.rs:263-272 | Writing a leaf changes the walk of its page only |
| `PageMapping.ElsewhereHarmless` | kernel/src/cpu.rs:278-295 | Writes outside the tables change no translation |
| `PageMapping.EmptyTree` | kernel/src/cpu.rs:240-273 | A cleared root is such a tree |
| `PageMapping.WithheldWrite` | kernel/src/cpu.rs:286-293 | A tree in which a writable page is asked for and not granted |
| `PageMapping.ClonePml4` | kernel/src/syscall.rs:1300-1304 | A copied root is a tree in order in which every page is translated as in the original |
| `PageMapping.CloneWalk` | kernel/src/syscall.rs:1300-1304 | Below the root, the copy leads where the original does |
| `PageTables.PathOfInjective` | kernel/src/cpu.rs:247-250 | Different pages have different index paths |
| `PageTables.MakeEntry` | kernel/src/cpu.rs:263-269 | The entry has exactly the requested address and flags |
| `PageTables.WithUser` | kernel/src/cpu.rs:290-292 | Sets the user bit and nothing else |
| `Layers.MemoryManager.TrackFrame` | kernel/src/syscall.rs:185-189 | Pushes a frame on the process's list; every intact list stays intact |
| `Layers.MemoryManager.FreeProcessFrames` | kernel/src/syscall.rs:192-200 | Terminates and moves every tracked frame to the free list exactly once; other lists are untouched |
| `Layers.FreeChain` | kernel/src/syscall.rs:193-198 | Reading each link before freeing its frame visits the whole list |
| `Layers.LinksExactly` | kernel/src/syscall.rs:185-189 | A list is intact iff the first words of its frames are |
| `Layers.MemoryManager.MemoryAllocate` | kernel/src/syscall.rs:544-583 | On success a page-aligned range inside the layer, disjoint from all earlier ones, each page user-writable in a fresh frame of its own that is no page table, zero but for its first word; earlier pages and all pages outside the range keep their translations; regions of other processes with other tables stay in order; what was taken is a new table or on the list, and on success exactly as much as the range needed; succeeds iff the range fits, no large page is in the way and there are frames for the pages and their missing tables; a size that wraps always yields an empty range |
| `Layers.FirstElfAllocation` | kernel/src/syscall.rs:544-583 | The first allocation in a layer that begins with the code page puts a fresh blank frame in place of the code; it succeeds iff one frame is left |
| `Layers.PagesOnly` | kernel/src/cpu.rs:278-295 | Where all tables exist a range needs one frame per page, and nothing is in its way |
| `Lifetimes.AllocateAfterExec` | kernel/src/syscall.rs:544-583 | Loading and then the first allocation: user code reads zeros where its code was; exact condition in terms of the state before loading |
| `Lifetimes.Lifetime` | kernel/src/syscall.rs:192-200 | Creation, any sequence of allocations, end: the frames still taken are exactly the tables built, which are on no list; if no allocation failed they are as many as the range lacked at creation |
| `Lifetimes.AllocateAll` | kernel/src/syscall.rs:544-583 | Allocations one after the other take together what the whole range takes |
| `Lifetimes.ElfLifetime` | kernel/src/syscall.rs:683-696 | A loaded program that ends gives back nothing of what loading took |
| `Lifetimes.CreateAndAllocate` | kernel/src/syscall.rs:386-412 | What a process allocates appears in its creator's address space exactly if the creator's root had an entry for the layer; all other pages of the creator stay |
| `Lifetimes.ExecFromElf` | kernel/src/elf.rs:100-171 | A loaded program that loads another one then sees the other one at its own load address; the second image takes exactly 17 frames |
| `Lifetimes.CallerReplaced` | kernel/src/elf.rs:105-152 | A caller with a user entry for the range finds the new file and stack at its own addresses |
| `Lifetimes.CallerKeepsPages` | kernel/src/elf.rs:105-152 | A caller keeps all its pages iff its root has no entry for the range |
| `SharedRoots.SeenThrough` | kernel/src/cpu.rs:240-273 | After changes through one root, a root that shares its tables sees below its own entries what the first has there, with user rights only as far as its own entries grant them, and nothing elsewhere |
| `SharedRoots.SharedWalk` | kernel/src/cpu.rs:240-273 | Below a shared entry two roots lead to the same places |
| `SharedRoots.PagesAppear` | kernel/src/cpu.rs:240-273 | Pages mapped through one root appear below the other, exactly where it has an entry |
| `Regions.NeededSplit` | kernel/src/syscall.rs:569-579 | Mapping a range in two parts takes as many frames as mapping it at once |
| `Layers.MemoryManager.MapFresh` | kernel/src/syscall.rs:569-579 | One round of the loop: one page more, or no change to the mapped pages, with the exact condition |
| `Layers.MemoryManager.MapRange` | kernel/src/syscall.rs:569-579 | The loop maps every page of the range, or leaves the mapped pages as they were and the range did not have what it needed |
| `Layers.MemoryManager.GrabFrame` | kernel/src/syscall.rs:570-573 | The frame is fresh, tracked, and not mapped by the process |
| `Layers.AlignUp64` | kernel/src/syscall.rs:1282-1284 | Rounds up to a page, and to 0 exactly when the sum wraps |
| `Layers.MemoryManager.FreshSpace` | kernel/src/syscall.rs:386-412 | A process with an unused layer meets the preconditions in any tree that is in order and has no table on the way to the layer that withholds write permission |
| `Layers.MemoryManager.ProvisionPcb` | kernel/src/syscall.rs:386-412 | A process created from the current one sees the same pages and has an empty layer that meets them |
| `Layers.AbsentIsWritable` | kernel/src/syscall.rs:386-412 | Where the root entry is absent no table withholds write permission |
| `Regions.OtherRegionKept` | kernel/src/syscall.rs:544-583 | A region of another process that shares no table with the changed one keeps all its translations |
| `Regions.NewIsMissing` | kernel/src/cpu.rs:278-295 | The tables missing for the next page of a range can be counted before the range is mapped |
| `Regions.TouchedIsShared` | kernel/src/cpu.rs:247-250 | A table serves an earlier page of a range iff it serves the page before |
| `Regions.ProgressStep` | kernel/src/syscall.rs:569-579 | One page more: nothing outside the range changes and the frames are accounted for |
| `Regions.ProgressFails` | kernel/src/syscall.rs:569-579 | A page that cannot be mapped means that the whole range could not be |
| `RamTree.PathResolves` | kernel/src/fs.rs:419-449 | The path of a live node leads back to it from any directory iff it is at most 32 levels deep and every name on the way is non-empty, has no slash and is neither "." nor ".." |
| `RamPaths.PathAfterPath` | kernel/src/fs.rs:419-449 | A path, a slash and a relative path lead where the second leads from the end of the first |
| `RamPaths.OneComponent` | kernel/src/fs.rs:430-446 | "." stays, ".." goes to the parent, and a name to the child of that name or nowhere |
| `RamPaths.AbsolutePath` | kernel/src/fs.rs:420-424 | A leading slash starts at the root, wherever one is |
| `RamPaths.EmptyPath` | kernel/src/fs.rs:420-424 | The empty path stays |
| `RamPaths.RelativeResolves` | kernel/src/fs.rs:419-449 | From a directory, the names down to anything below it lead there |
| `RamPaths.ParentResolves` | kernel/src/fs.rs:435-438 | The path of a node followed by ".." leads to its parent |
| `RamPaths.PathOfChild` | kernel/src/fs.rs:482-516 | The path of a node is that of its directory, a slash and its name |
| `RamTree.ReachesClean` | kernel/src/fs.rs:419-449 | Paths lead only to nodes all of whose names can be written in a path |
| `RamTree.PrintedResolves` | kernel/src/fs.rs:482-516 | A printed chain of names leads to its node |
| `RamTree.ChildFound` | kernel/src/fs.rs:236-244 | In a tree a name finds its one child |
| `RamTree.ChainReachesRoot` | kernel/src/fs.rs:247-290 | Parent chains reach the root |
| `RamTree.DotUnreachable` | kernel/src/fs.rs:439-441 | A directory named "." is not reached by its own path |
| `RamTree.AddedTree` | kernel/src/fs.rs:247-290 | A new node in a reused slot keeps the tree and unique sibling names |
| `RamTree.RemovedTree` | kernel/src/fs.rs:367-385 | Removing a childless node keeps the tree |
| `RamFs.FileSystem.LookUp` | kernel/src/fs.rs:236-244 | The lowest-numbered child of that name |
| `RamFs.FileSystem.AllocNode` | kernel/src/fs.rs:226-233 | The lowest free slot from 1 on |
| `RamFs.FileSystem.MkDir` | kernel/src/fs.rs:247-265 | Keeps the tree and all contents; refused exactly for a bad name, no directory, a duplicate or a full table |
| `RamFs.FileSystem.CreateFile` | kernel/src/fs.rs:268-290 | The same for files; an existing file is returned |
| `RamFs.FileSystem.Write` | kernel/src/fs.rs:293-321 | That file holds the data and every other file what it held; a refusal changes nothing; exact conditions for success, refusal and, for data of 2^32 bytes or more, a write past the pool, which fills the pool from the file's offset to its end |
| `RamFs.FileSystem.Append` | kernel/src/fs.rs:324-352 | That file holds old ++ new and every other file what it held |
| `RamFs.FileSystem.Read` | kernel/src/fs.rs:355-364 | The content of the node |
| `RamFs.StoredContents` | kernel/src/fs.rs:293-352 | Extents stay disjoint and below the bump pointer, and only one content changes |
| `RamFs.FileSystem.Unlink` | kernel/src/fs.rs:367-385 | Removes files and empty directories only, and keeps the tree and the other contents |
| `RamFs.FileSystem.ResolveFrom` | kernel/src/fs.rs:419-449 | The scanning loops compute the resolution of the path, from the root or from `start`, as the laws of `RamPaths` say |
| `RamFs.FileSystem.PathOf` | kernel/src/fs.rs:482-516 | Writes the path, cut where the buffer ends, and nothing behind it |
| `RamFs.FileSystem.FirstChild` | kernel/src/fs.rs:519-528 | The lowest-numbered child, or none iff there is none |
| `RamFs.FileSystem.RmRecursive` | kernel/src/commands.rs:260-274 | Terminates and removes exactly the proper descendants; survivors keep their nodes and contents |
| `WorkQueue.FifoOnce` | kernel/src/smp.rs:698-718 | Under every interleaving the calls made are a prefix of the items accepted, so each is executed at most once and in order |
| `WorkQueue.Served` | kernel/src/smp.rs:709-718 | Under every interleaving, once the consumer runs, all that was accepted by then is executed after at most seven of its steps for each item |
| `WorkQueue.Drains` | kernel/src/smp.rs:709-718 | Left alone, a running consumer executes everything accepted and goes away, after exactly that many steps and two |
| `WorkQueue.InterruptServes` | kernel/src/smp.rs:709-718 | An interrupt leads to the execution of all that waits |
| `WorkQueue.PushAccepted` | kernel/src/smp.rs:698-706 | Under every interleaving, a push that starts while fewer than 31 items wait is accepted after five steps of the producer |
| `WorkQueue.PushedIsExecuted` | kernel/src/smp.rs:698-718 | From the push to the call: an item that found room is executed by the next round of the consumer |
| `WorkQueue.ExecutesOldest` | kernel/src/smp.rs:709-718 | A step executes at most one item, the oldest not yet executed |
| `WorkQueue.NoOverwrite` | kernel/src/smp.rs:698-706 | No store of the producer touches a slot that is not yet consumed |
| `WorkQueue.RefusedWhenFull` | kernel/src/smp.rs:699-702 | A push is refused iff 31 items wait as it reads the head |
| `WorkQueue.StopsWhenEmpty` | kernel/src/smp.rs:710-717 | The consumer stops iff everything accepted has been executed as it reads the tail |
| `WorkQueue.StepInv` | kernel/src/smp.rs:698-718 | Every read and write of either side keeps the invariant |
| `Line.DrawLine` | kernel/src/graphics.rs:52-76 | Plots max(dx,dy) + 1 pixels from one end to the other, each the rounded point of the ideal line, also when the error variable or a coordinate wraps; a 32-bit operation overflows iff `WillOverflow` holds of the distances or a coordinate passes 2^31 |
| `Line.AxisStep` | kernel/src/graphics.rs:68-75 | A signed coordinate steps to the next pixel and overflows exactly where its sign changes |
| `Line.AtNext` | kernel/src/graphics.rs:66-75 | One round leads to the next pixel of the ideal line, and overflows where some operation leaves the range |
| `Line.HalfPixel` | kernel/src/graphics.rs:62-75 | Every pixel is within half a pixel of the line along the shorter axis |
| `Line.RoundedEnds` | kernel/src/graphics.rs:62-75 | The shorter axis runs from 0 to its full length and no further |
| `Line.WrappedStep` | kernel/src/graphics.rs:66-75 | One round in 32-bit arithmetic gives the true error, and leaves the range exactly in an overflowing step |
| `Line.OverflowExactly` | kernel/src/graphics.rs:66-75 | Some step overflows iff the largest residue below dx, plus dy, exceeds 2^31 |
| `Line.PeakBounds` | kernel/src/graphics.rs:66-75 | No step meets a larger residue |
| `Line.PeakMet` | kernel/src/graphics.rs:66-75 | Some step meets that residue |
| `Line.DiagonalOverflows` | kernel/src/graphics.rs:66-75 | The line from (0,0) to (2^31-1, 2^31-1) overflows in its first step |
| `Line.ShortLinesAreSafe` | kernel/src/graphics.rs:66-75 | Distances with a sum of at most 2^31 never overflow |

## Left out

- Stack depth of the compiler's recursive descent: recursion in the model is unbounded.
- The machine's data memory is made of aligned 8-byte words, which is all the emitted code uses; flags are known only right after `test` and `cmp`, and testing them elsewhere is a fault, which is proved not to happen.
- Compiler.Compile: which of the two limit errors is reported when both limits are exceeded, or when a limit is exceeded before a syntax error, is not stated.
- Interrupts during user code: a timer tick is a step of the scheduler, and otherwise invisible to the process.
- The registers a system call clobbers are an arbitrary function of the output so far.
- Interpreter statements, its lexer and assignment to variables: expressions are modelled, in any environment; how a typed line is read as a number is a parameter.
- Loader.Exec: only one-page images as the compiler writes them; which slot is free is a parameter, and the copy into a frame goes by words.
- Elf.ReadHeader: only files with the compiler's headers, as for `Loader.Exec`.
- Elf.FindRange: only files with the compiler's one segment, as for `Loader.Exec`.
- Loader.LoadSegments: only that one segment of one page, as for `Loader.Exec`.
- Kernel.ProcessManager.ExitProcess: file descriptors, exit codes and the freeing of frames are not part of that model; freeing is `Layers.MemoryManager.FreeProcessFrames`.
- Kernel.ProcessManager.KillProcess: the same.
- Kernel.ProcessManager.CopyUserMessage: every byte of a layer counts as mapped; in the kernel a copy from a page that is not would fault. No process writes another's layer, although a copied root shares lower tables with the original.
- Kernel.ProcessManager.CreateProcess: entry point, stacks and page tables of the new process are not modelled; its memory and layer are arbitrary.
- IpcRuns.BoundedWaiting: does not cover `run_slot`, which picks a process without the scheduler.
- Halting: the wait for an interrupt when nobody can run is a final state.
- PageMapping.MapPage: its contract is about one tree; what another root sees follows by `SharedRoots.SeenThrough`. The contents of the TLB are not modelled.
- Layers.MemoryManager.FreeProcessFrames: requires the links to be intact, since the process and the ELF loader can overwrite them; what happens when it follows a broken link is not modelled.
- Frames.FramePool.FreeFrame: after a frame that is not held has been freed, nothing is said about later calls.
- Line.DrawLine: lines that span 2^31 pixels or more along an axis, which the 32-bit parameters allow.
- Lifetimes.Lifetime: the process leaves the links of its list alone, as `Layers.MemoryManager.FreeProcessFrames` requires.
- Lifetimes.ElfLifetime: says nothing about frames taken by a load that fails.
- The current directory, file descriptors and `resolve_parent`; the initial directories and files.
- Weak memory ordering and re-entry of the queue's consumer.
- Clipping and colours of `draw_line`: a pixel is its coordinates.
- Everything else in the repository: image decoders, network stack, drivers, firmware, user interface and demos.
