/** End to end: from source bytes to the behaviour of the process that runs the compiled image. */
module SourceCorrectness {
  import opened Words
  import opened Machine
  import S = BarrelSyntax
  import opened BarrelGrammar
  import opened BarrelSemantics
  import opened BarrelLexer
  import opened BarrelText
  import opened BarrelLayout
  import opened CompilerStmts
  import opened Codegen
  import opened ExprSimulation
  import opened ProgramCorrectness
  import opened CompilerSpec
  import opened Compiler
  import opened Elf
  import opened Frames
  import opened Loader
  import opened ProcessMemory
  import I = Interpreter

  /** An accepted source has exactly one program, of which it is the printed form. */
  lemma AcceptedProgram(src: Source, b: S.Block, b': S.Block)
    requires Accepted(src, b)
    ensures Lex(src, 0) == S.TokensB(b) && S.GrammaticalB(b) && Compilable(b, DeclareB([], b))
    ensures Accepted(src, b') ==> b' == b
  {
    hide Lex, S.ParseProgram, DeclareB, SizeB;
    ProgramRoundTrip(Lex(src, 0), b);
    DeclareBGrows([], b);
  }

  /** Running what the compiler emits for `src`, in a process with a 64 KiB stack of any contents:
      it exits having printed `out` iff the source program ends having printed `out`, it runs
      forever iff the source program does, it never faults, and rsp stays in its frame. */
  lemma SourceMeaning(src: Source, b: S.Block, k: Kernel, m: State, top: int, out: Trace)
    requires Accepted(src, b) && Loaded(m, top, STACK_BYTES)
    ensures Compilable(b, DeclareB([], b))
    ensures var vars := DeclareB([], b);
            var c, st := Image(b, vars), InitialStore(m, top, vars);
            && (Terminates(b, st, out) <==> exists n: nat :: Run(c, k, m, n) == Exited(out))
            && (Diverges(b, st) <==> forall n: nat :: Run(c, k, m, n).Running?)
            && (forall n: nat :: Sound(Frame(b, vars, k, top), m, n))
  {
    hide Lex, S.ParseProgram, Run, Image, InitialStore, Accepted, Terminates, Diverges, Sound, DeclareB, SizeB;
    AcceptedProgram(src, b, b);
    StackSuffices(b);
    assert Loaded(m, top, StackNeed(b));
    CompiledCorrect(b, DeclareB([], b), k, m, top, out);
  }

  /** Every grammatical program within the compiler's limits, with names that can be written, has a
      source that the compiler accepts as that program. */
  lemma EveryProgramHasText(b: S.Block)
    requires S.GrammaticalB(b) && AllLexable(S.TokensB(b)) && Fits(b, SizeP(b))
    ensures Accepted(Text(S.TokensB(b)), b)
  {
    hide Lex, S.ParseProgram, Fits, SizeP, Text;
    TextRoundTrip(S.TokensB(b));
    ProgramRoundTrip(S.TokensB(b), b);
  }

  /** Which sources are accepted as `b`, said without the lexer: those that write its tokens down one
      after the other, with any blanks and comments between them. */
  lemma AcceptedIsLayout(src: Source, b: S.Block)
    ensures Accepted(src, b) <==>
            && S.GrammaticalB(b) && Fits(b, SizeP(b))
            && exists words, gaps, tail :: Writes(src, S.TokensB(b), words, gaps, tail)
  {
    hide Lex, S.ParseProgram, Fits, SizeP, Writes;
    NoBadB(b);
    LexedIsLayout(src, S.TokensB(b));
    ProgramRoundTrip(Lex(src, 0), b);
  }

  /** A source on which the compiler never returns: a closing brace. */
  lemma BraceHangs()
    ensures Unmatched(Text([S.TRBrace]))
  {
    var ts := [S.TRBrace];
    TextRoundTrip(ts);
    assert S.ParseStmts(ts) == Some((S.Done, ts));
    assert DeclareB([], S.Done) == [] && SizeB(S.Done) == 0 && PeakB(S.Done) == 0;
  }

  /** The compiled code of a closed expression leaves its value in rax, and keeps rsp, rbp and the locals. */
  lemma ClosedRuns(x: Ctx, e: S.Expr, vars: Vars, st: Store, m: State) returns (n: nat, m': State)
    requires I.Closed(e) && Declares(vars, Names(e)) && CodeAt(x.c, m.pc, CodeE(e, vars))
    requires Locals(m.mem, x.base, vars, st) && Safe(x, m, Depth(e))
    ensures Run(x.c, x.k, m, n) == Running(m') && m'.rax == Eval(e, map[])
    ensures m'.rsp == m.rsp && m'.rbp == m.rbp && Locals(m'.mem, x.base, vars, st)
  {
    hide CodeAt, Run, Goes, CodeE, Names, Depth, Eval, SizeE;
    n, m' := ExprRuns(x, e, vars, st, m);
    GoesRuns(x, m, n, m', 0);
    I.ClosedEval(e, st);
    LocalsKept(m.mem, m'.mem, m.rsp, x.base, vars, st);
  }

  /** The interpreter, on a script that holds the expression at the cursor, moves behind it and returns
      what the compiled code leaves in rax: the expression's value modulo 2^64. */
  method InterpreterAgrees(s: I.Script, ip0: nat, k: nat, ghost e: S.Expr, ghost x: Ctx, ghost vars: Vars,
                           ghost st: Store, ghost m: State)
    returns (v: I.Value, ip: nat, ghost n: nat, ghost m': State)
    requires S.Grammatical(e) && I.Closed(e) && I.Holds(s, ip0, e)
    requires Declares(vars, Names(e)) && CodeAt(x.c, m.pc, CodeE(e, vars))
    requires Locals(m.mem, x.base, vars, st) && Safe(x, m, Depth(e))
    ensures v == I.Num(m'.rax) && v == I.Num(Eval(e, map[])) && ip == ip0 + |S.Tokens(e)|
    ensures Run(x.c, x.k, m, n) == Running(m')
    ensures m'.rsp == m.rsp && m'.rbp == m.rbp && Locals(m'.mem, x.base, vars, st)
  {
    hide CodeAt, Run, CodeE, Names, Depth, Eval, I.Holds, I.Closed, Safe, Locals;
    v, ip := I.EvalShared(s, ip0, k, e);
    n, m' := ClosedRuns(x, e, vars, st, m);
  }

  /** The machine is about to run in an address space: rsp is the stack top, and its memory is the stack
      that user code sees there. */
  ghost predicate StartsIn(m: State, mem: Memory, root: nat) {
    m.pc == 0 && m.rsp == TOP && m.out == [] && Sees(m, mem, root)
  }

  /** The loader makes room for the whole stack, and variables start at zero. */
  lemma StartIsLoaded(mem: Memory, root: nat, file: seq<byte>, m: State)
    requires Ready(mem, root, file) && StartsIn(m, mem, root)
    ensures Loaded(m, TOP, STACK_BYTES)
    ensures forall i :: 0 <= i < MAX_LOCALS ==> TOP - 8 + Disp(i) in m.mem && m.mem[TOP - 8 + Disp(i)] == 0
  {
    hide UserWord, UserByte, OwnPages;
    forall i | 0 <= i < MAX_LOCALS ensures TOP - 8 + Disp(i) in m.mem && m.mem[TOP - 8 + Disp(i)] == 0 {
      var a: nat := TOP - 8 + Disp(i);
      assert StackWord(a) && a % PAGE != 0;
    }
  }

  /** From source to process: in the address space that `compile_and_run` builds for an accepted source,
      the compiled program lies at the entry point, and running it prints exactly what the source
      program prints when every variable starts at zero. On the way it writes to the frames of its own
      stack and to no other memory. */
  lemma ProcessMeaning(src: Source, b: S.Block, mem: Memory, root: nat, k: Kernel, m: State, out: Trace)
    requires Accepted(src, b) && Declares(DeclareB([], b), NamesB(b)) && CODE_OFF + |Image(b, DeclareB([], b))| <= PAGE
    requires Ready(mem, root, FileOf(Image(b, DeclareB([], b)))) && StartsIn(m, mem, root)
    ensures var vars := DeclareB([], b);
            var c, st := Image(b, vars), InitialStore(m, TOP, vars);
            && (forall i :: 0 <= i < |c| ==> UserByte(mem, root, LOAD_VADDR + CODE_OFF + i) == Some(c[i] as int))
            && (forall x :: x in vars ==> x in st && st[x] == 0)
            && (Terminates(b, st, out) <==> exists n: nat :: Run(c, k, m, n) == Exited(out))
            && (Diverges(b, st) <==> forall n: nat :: Run(c, k, m, n).Running?)
            && (forall n: nat :: Run(c, k, m, n).Running? ==> exists mem' :: RanIn(Run(c, k, m, n).st, mem, mem', root))
  {
    hide Lex, S.ParseProgram, Run, Image, InitialStore, Accepted, Terminates, Diverges, Sound, DeclareB, SizeB, NamesB;
    hide Sees, Loaded, OwnPages, RanIn;
    hide UserByte, UserWord, FileHeader, SegmentHeader;
    var c, vars := Image(b, DeclareB([], b)), DeclareB([], b);
    StartIsLoaded(mem, root, FileOf(c), m);
    SourceMeaning(src, b, k, m, TOP, out);
    forall n: nat | Run(c, k, m, n).Running? ensures exists mem' :: RanIn(Run(c, k, m, n).st, mem, mem', root) {
      var mem' := RunsInPlace(c, k, m, n, Run(c, k, m, n).st, mem, root);
    }
    forall i | 0 <= i < |c| ensures UserByte(mem, root, LOAD_VADDR + CODE_OFF + i) == Some(c[i] as int) {
      assert FileOf(c)[CODE_OFF + i] == c[i];
    }
    forall x | x in vars ensures x in InitialStore(m, TOP, vars) && InitialStore(m, TOP, vars)[x] == 0 {
      var i :| 0 <= i < |vars| && vars[i] == x;
    }
  }
}
