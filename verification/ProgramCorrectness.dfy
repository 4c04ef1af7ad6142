/** Whole programs: layout of the emitted code, and preservation of meaning from the first
    instruction to the exit system call. */
module ProgramCorrectness {
  import opened Words
  import opened X86
  import opened Machine
  import opened S = BarrelSyntax
  import opened BarrelSemantics
  import opened Codegen
  import opened ExprSimulation
  import opened StmtSimulation
  import opened JumpTargets

  /** Room for code in the 4096-byte image after the 120 bytes of headers. */
  const MAX_CODE := 3976
  const STACK_BYTES := 65536

  function SizeP(b: Block): nat { 11 + SizeB(b) + 9 }

  /** A program the compiler can emit: its variables fit the frame and its code fits the image. */
  ghost predicate Compilable(b: Block, vars: Vars) {
    Declares(vars, NamesB(b)) && Distinct(vars) && |vars| <= MAX_LOCALS && SizeP(b) <= MAX_CODE
  }

  function Image(b: Block, vars: Vars): seq<byte>
    requires Declares(vars, NamesB(b))
  {
    Bytes(CodeP(b, vars))
  }

  // ----- Layout -----

  lemma SizeOfEnds()
    ensures Size(PROLOGUE) == 11 && Size(EPILOGUE) == 9
  {
    hide Size, Encode;
    Size1(PROLOGUE);
    Size1(EPILOGUE);
  }

  lemma SizeOfP(b: Block, vars: Vars)
    requires Declares(vars, NamesB(b))
    ensures Size(CodeP(b, vars)) == SizeP(b) == |Image(b, vars)|
  {
    hide Bytes, CodeB, SizeB;
    SizeOfEnds();
    SizeOfB(b, vars, None);
    SizeConcat(CodeB(b, vars, None), EPILOGUE);
    SizeConcat(PROLOGUE, CodeB(b, vars, None) + EPILOGUE);
  }

  /** Repeated decoding from `pc` to the end of the bytes. */
  function Disassemble(c: seq<byte>, pc: nat): Option<seq<Instr>>
    decreases |c| - pc
  {
    if pc >= |c| then Some([])
    else
      match Decode(c, pc)
      case None => None
      case Some((i, len)) =>
        if len == 0 then None
        else
          match Disassemble(c, pc + len)
          case None => None
          case Some(rest) => Some([i] + rest)
  }

  lemma {:induction false} DisassembleBytes(c: seq<byte>, pc: nat, s: seq<Instr>)
    requires CodeAt(c, pc, s) && pc + Size(s) == |c|
    ensures Disassemble(c, pc) == Some(s)
    decreases |s|
  {
    hide Decode, Encode, CodeAt;
    if s == [] {
      Size1(s);
    } else {
      Size1(s);
      CodeHead(c, pc, s);
      DisassembleBytes(c, pc + |Encode(s[0])|, s[1..]);
      assert [s[0]] + s[1..] == s;
    }
  }

  /** The jump at index `i` of `s` goes to the start of instruction `j`. */
  ghost predicate JumpsTo(s: seq<Instr>, i: nat, j: nat)
    requires i < |s| && IsJump(s[i])
  {
    j <= |s| && Target(s, i, 0) == Size(s[..j])
  }

  /** Decoding the image gives back the generated instructions, and every jump in it lands on an
      instruction that is not past the start of the exit sequence. */
  lemma ImageDecodes(b: Block, vars: Vars)
    requires Compilable(b, vars)
    ensures AllEncodable(CodeP(b, vars))
    ensures Disassemble(Image(b, vars), 0) == Some(CodeP(b, vars))
    ensures forall i :: 0 <= i < |CodeP(b, vars)| && IsJump(CodeP(b, vars)[i]) ==>
              exists j :: 0 <= j <= |CodeP(b, vars)| - |EPILOGUE| && JumpsTo(CodeP(b, vars), i, j)
  {
    hide Bytes, Lands, Modest, CodeB, SizeB, NamesB, Decode, Disassemble, AllEncodable, Size, IsJump;
    var s := CodeP(b, vars);
    SizeOfP(b, vars);
    ProgramLands(b, vars);
    LandsEncodable(s, Edges(b, vars), MAX_CODE);
    CodeAtStart(s);
    DisassembleBytes(Bytes(s), 0, s);
    forall i | 0 <= i < |s| && IsJump(s[i])
      ensures exists j :: 0 <= j <= |s| - |EPILOGUE| && JumpsTo(s, i, j)
    {
      LandsOne(s, i, Edges(b, vars));
      var j :| 0 <= j <= |s| - |EPILOGUE| && Size(s[..j]) == Target(s, i, 0);
      assert JumpsTo(s, i, j);
    }
  }

  lemma LandsOne(s: seq<Instr>, i: nat, t: iset<int>)
    requires Lands(s, 0, t) && i < |s| && IsJump(s[i])
    ensures Target(s, i, 0) in t
  {
  }

  /** Instruction starts up to the beginning of the exit sequence. */
  ghost function Edges(b: Block, vars: Vars): iset<int>
    requires Declares(vars, NamesB(b))
  {
    var s := CodeP(b, vars);
    iset j | 0 <= j <= |s| - |EPILOGUE| :: Size(s[..j])
  }

  lemma ProgramLands(b: Block, vars: Vars)
    requires Compilable(b, vars)
    ensures Lands(CodeP(b, vars), 0, Edges(b, vars)) && Modest(CodeP(b, vars))
    ensures forall a :: a in Edges(b, vars) ==> 0 <= a <= MAX_CODE
  {
    hide Size, CodeB, SizeB, NamesB, Lands, Modest;
    var t := Edges(b, vars);
    var b' := CodeB(b, vars, None);
    var s := CodeP(b, vars);
    SizeOfP(b, vars);
    SizeOfEnds();
    forall j | 0 <= j <= |s| ensures Size(s[..j]) <= Size(s) {
      assert s == s[..j] + s[j..];
      SizeConcat(s[..j], s[j..]);
    }
    assert Covers(t, b', 11) by {
      forall j | 0 <= j <= |b'| ensures 11 + Size(b'[..j]) in t {
        assert s[..3 + j] == PROLOGUE + b'[..j];
        SizeConcat(PROLOGUE, b'[..j]);
      }
    }
    BlockLands(b, vars, None, 11, t);
    SizeOfB(b, vars, None);
    NoJumpsLand(PROLOGUE, 0, t);
    NoJumpsLand(EPILOGUE, 11 + SizeB(b), t);
    LandsConcat(b', EPILOGUE, 11, t);
    LandsConcat(PROLOGUE, b' + EPILOGUE, 0, t);
  }

  lemma LandsEncodable(s: seq<Instr>, t: iset<int>, n: int)
    requires Lands(s, 0, t) && Modest(s) && Size(s) <= n < 0x4000_0000 && forall a :: a in t ==> 0 <= a <= n
    ensures AllEncodable(s)
  {
    hide Size;
    forall i | 0 <= i < |s| ensures Encodable(s[i]) {
      if IsJump(s[i]) {
        assert s == s[..i + 1] + s[i + 1..];
        SizeConcat(s[..i + 1], s[i + 1..]);
        assert Target(s, i, 0) in t;
      }
    }
  }

  lemma CodeAtStart(s: seq<Instr>)
    requires AllEncodable(s)
    ensures CodeAt(Bytes(s), 0, s)
  {
    hide Bytes;
    assert Bytes(s)[0..0 + |Bytes(s)|] == Bytes(s);
  }

  // ----- Execution -----

  /** A process about to run the image: rsp is `top`, and `room` bytes below it are mapped. */
  ghost predicate Loaded(m: State, top: int, room: int) {
    && m.pc == 0 && m.rsp == top && m.out == [] && top % 8 == 0 && room % 8 == 0
    && room <= top < W64 && Mapped(m.mem, top - room, top)
  }

  /** Stack bytes a program needs: saved rbp, locals, and one word per byte of code for temporaries. */
  function StackNeed(b: Block): nat { 8 + FRAME_BYTES + 8 * SizeB(b) }

  lemma StackSuffices(b: Block)
    requires SizeP(b) <= MAX_CODE
    ensures StackNeed(b) <= STACK_BYTES
  {
  }

  /** The variables' initial values: what the frame held before the program started. */
  ghost function InitialStore(m: State, top: int, vars: Vars): (st: Store)
    ensures forall i :: 0 <= i < |vars| && Distinct(vars) && top - 8 + Disp(i) in m.mem ==>
              vars[i] in st && st[vars[i]] == m.mem[top - 8 + Disp(i)]
  {
    map x | x in vars && top - 8 + Disp(SlotOf(vars, x)) in m.mem :: m.mem[top - 8 + Disp(SlotOf(vars, x))]
  }

  /** The prologue sets up the frame. */
  lemma PrologueRuns(c: seq<byte>, k: Kernel, vars: Vars, m: State, top: int, room: int) returns (m': State)
    requires CodeAt(c, 0, PROLOGUE) && Loaded(m, top, room) && room >= 8 + FRAME_BYTES
    requires Distinct(vars) && |vars| <= MAX_LOCALS
    ensures Run(c, k, m, 3) == Running(m') && m'.pc == 11 && m'.out == []
    ensures m'.rbp == top - 8 && m'.rsp == top - 8 - FRAME_BYTES
    ensures Mapped(m'.mem, top - room, top) && Locals(m'.mem, top - 8, vars, InitialStore(m, top, vars))
    ensures Run(c, k, m, 1).Running? && Run(c, k, m, 2).Running?
  {
    hide CodeAt, Step, Decode, Run, InitialStore;
    m' := PrologueSteps(c, k, m);
    InitialLocals(m, m'.mem, vars, top, room);
  }

  lemma PrologueSteps(c: seq<byte>, k: Kernel, m: State) returns (m': State)
    requires CodeAt(c, m.pc, PROLOGUE) && 8 + FRAME_BYTES <= m.rsp && m.rsp - 8 in m.mem
    ensures Run(c, k, m, 3) == Running(m') && Run(c, k, m, 1).Running? && Run(c, k, m, 2).Running?
    ensures m' == m.(pc := m.pc + 11, rbp := m.rsp - 8, rsp := m.rsp - 8 - FRAME_BYTES,
                     mem := m.mem[m.rsp - 8 := m.rbp], flags := None)
  {
    hide CodeAt, Step, Decode, Run;
    StepAt(c, k, m, PROLOGUE);
    var m1 := Step(c, k, m).st;
    StepAt(c, k, m1, PROLOGUE[1..]);
    var m2 := Step(c, k, m1).st;
    StepAt(c, k, m2, PROLOGUE[1..][1..]);
    m' := Step(c, k, m2).st;
    Run3(c, k, m, m1, m2, m');
  }

  lemma InitialLocals(m: State, mem': map<int, u64>, vars: Vars, top: int, room: int)
    requires Loaded(m, top, room) && room >= 8 + FRAME_BYTES && Distinct(vars) && |vars| <= MAX_LOCALS
    requires mem' == m.mem[top - 8 := m.rbp]
    ensures Mapped(mem', top - room, top) && Locals(mem', top - 8, vars, InitialStore(m, top, vars))
  {
    hide InitialStore;
    forall i | 0 <= i < |vars|
      ensures top - 8 + Disp(i) in mem' && mem'[top - 8 + Disp(i)] == Get(InitialStore(m, top, vars), vars[i])
    {
      assert top - 8 + Disp(i) in m.mem;
    }
  }

  lemma Run3(c: seq<byte>, k: Kernel, m: State, m1: State, m2: State, m3: State)
    requires Step(c, k, m) == Running(m1) && Step(c, k, m1) == Running(m2) && Step(c, k, m2) == Running(m3)
    ensures Run(c, k, m, 1) == Running(m1) && Run(c, k, m, 2) == Running(m2) && Run(c, k, m, 3) == Running(m3)
  {
    hide Step;
    assert Run(c, k, m2, 1) == Run(c, k, m3, 0) && Run(c, k, m1, 1) == Run(c, k, m2, 0) &&
      Run(c, k, m, 1) == Run(c, k, m1, 0);
    assert Run(c, k, m1, 2) == Run(c, k, m2, 1);
    assert Run(c, k, m, 2) == Run(c, k, m1, 1) && Run(c, k, m, 3) == Run(c, k, m1, 2);
  }

  /** The exit sequence ends the process. */
  lemma EpilogueRuns(c: seq<byte>, k: Kernel, m: State)
    requires CodeAt(c, m.pc, EPILOGUE)
    ensures Run(c, k, m, 3) == Exited(m.out)
    ensures forall j :: 0 <= j < 3 ==>
              Run(c, k, m, j).Running? && Run(c, k, m, j).st.rsp == m.rsp && Run(c, k, m, j).st.rbp == m.rbp
  {
    hide CodeAt, Step, Decode, Run;
    StepAt(c, k, m, EPILOGUE);
    var m1 := Step(c, k, m).st;
    StepAt(c, k, m1, EPILOGUE[1..]);
    var m2 := Step(c, k, m1).st;
    StepAt(c, k, m2, EPILOGUE[1..][1..]);
    RunEnds(c, k, m, m1, m2);
    forall j | 0 <= j < 3
      ensures Run(c, k, m, j).Running? && Run(c, k, m, j).st.rsp == m.rsp && Run(c, k, m, j).st.rbp == m.rbp
    {
      if j == 0 { RunNone(c, k, m); }
    }
  }

  lemma RunNone(c: seq<byte>, k: Kernel, m: State)
    ensures Run(c, k, m, 0) == Running(m)
  {
  }

  lemma RunEnds(c: seq<byte>, k: Kernel, m: State, m1: State, m2: State)
    requires Step(c, k, m) == Running(m1) && Step(c, k, m1) == Running(m2) && Step(c, k, m2).Exited?
    ensures Run(c, k, m, 3) == Step(c, k, m2) && Run(c, k, m, 1) == Running(m1) && Run(c, k, m, 2) == Running(m2)
  {
    hide Step;
    assert Run(c, k, m2, 1) == Step(c, k, m2) && Run(c, k, m1, 1) == Run(c, k, m2, 0) &&
      Run(c, k, m, 1) == Run(c, k, m1, 0);
    assert Run(c, k, m1, 2) == Run(c, k, m2, 1);
    assert Run(c, k, m, 2) == Run(c, k, m1, 1) && Run(c, k, m, 3) == Run(c, k, m1, 2);
  }

  /** The frame of a program loaded with rsp at `top`. */
  function Frame(b: Block, vars: Vars, k: Kernel, top: int): Ctx
    requires Declares(vars, NamesB(b))
  {
    Ctx(Image(b, vars), k, top - 8, top - StackNeed(b))
  }

  /** At step `j` the machine has not faulted, and once the prologue is over rsp is in the frame. */
  ghost predicate Sound(x: Ctx, m: State, j: nat) {
    var o := Run(x.c, x.k, m, j);
    !o.Fault? && (o.Running? && j >= 3 ==> InFrame(x, o.st))
  }

  /** What the machine has done once the source has used up `fuel`. */
  ghost predicate Follows(x: Ctx, m: State, n: nat, r: Result, fuel: nat) {
    && (forall j :: 0 <= j <= n ==> Sound(x, m, j))
    && match r.how
       case OutOfFuel => n >= fuel && Run(x.c, x.k, m, n).Running? && Run(x.c, x.k, m, n).st.out == r.out
       case Normal => Run(x.c, x.k, m, n) == Exited(r.out)
       case Broke => false
  }

  lemma ImageSplit(b: Block, vars: Vars)
    requires Compilable(b, vars)
    ensures var c := Image(b, vars);
            CodeAt(c, 0, PROLOGUE) && CodeAt(c, 11, CodeB(b, vars, None)) && CodeAt(c, 11 + SizeB(b), EPILOGUE)
  {
    hide Bytes, CodeB, SizeB, NamesB, CodeAt, Size, Disassemble, IsJump;
    var s := CodeP(b, vars);
    ImageDecodes(b, vars);
    CodeAtStart(s);
    SizeOfEnds();
    SizeOfB(b, vars, None);
    CodeSplit(Bytes(s), 0, PROLOGUE, CodeB(b, vars, None) + EPILOGUE);
    CodeSplit(Bytes(s), 11, CodeB(b, vars, None), EPILOGUE);
  }

  /** The machine follows the source for any amount of fuel. */
  lemma ProgramFollows(b: Block, vars: Vars, k: Kernel, m: State, top: int, fuel: nat) returns (n: nat)
    requires Compilable(b, vars) && Loaded(m, top, StackNeed(b))
    ensures Follows(Frame(b, vars, k, top), m, n, ExecB(b, InitialStore(m, top, vars), false, fuel), fuel)
  {
    hide CodeAt, Step, Decode, Run, Bytes, CodeB, ExecB, NamesB, InitialStore, Goes, Locals;
    var x := Frame(b, vars, k, top);
    var st := InitialStore(m, top, vars);
    ImageSplit(b, vars);
    var m1 := PrologueRuns(x.c, k, vars, m, top, StackNeed(b));
    RunNone(x.c, k, m);
    var n2, m2 := BlockRuns(x, b, vars, None, st, fuel, m1);
    forall j | 0 <= j <= 3 + n2 ensures Sound(x, m, j) {
      if j >= 3 {
        RunTrans(x.c, k, m, 3, m1, j - 3);
        GoesRuns(x, m1, n2, m2, j - 3);
      }
    }
    GoesRuns(x, m1, n2, m2, 0);
    RunTrans(x.c, k, m, 3, m1, n2);
    n := 3 + n2;
    NoStrayBreakB(b, st, fuel);
    if ExecB(b, st, false, fuel).how == Normal {
      EpilogueRuns(x.c, k, m2);
      forall j | n <= j <= n + 3 ensures Sound(x, m, j) {
        RunTrans(x.c, k, m, n, m2, j - n);
        GoesRuns(x, m1, n2, m2, n2);
      }
      RunTrans(x.c, k, m, n, m2, 3);
      n := n + 3;
    }
  }

  /** Compilation preserves meaning: for every compilable program, every kernel and every initial
      stack contents, the machine exits having printed `out` iff the source ends having printed
      `out`, runs forever iff the source does, never faults, and keeps rsp in its frame. */
  lemma CompiledCorrect(b: Block, vars: Vars, k: Kernel, m: State, top: int, out: Trace)
    requires Compilable(b, vars) && Loaded(m, top, StackNeed(b))
    ensures var c, st := Image(b, vars), InitialStore(m, top, vars);
            && (Terminates(b, st, out) <==> exists n: nat :: Run(c, k, m, n) == Exited(out))
            && (Diverges(b, st) <==> forall n: nat :: Run(c, k, m, n).Running?)
    ensures forall n: nat :: Sound(Frame(b, vars, k, top), m, n)
  {
    hide Run, Bytes, CodeP, ExecB, NamesB, InitialStore, Loaded, InFrame;
    var x := Frame(b, vars, k, top);
    var st := InitialStore(m, top, vars);
    TerminatesOrDiverges(b, st, out, out);
    if Diverges(b, st) {
      forall n: nat ensures Run(x.c, k, m, n).Running? && Sound(x, m, n) {
        var n' := ProgramFollows(b, vars, k, m, top, n);
        assert ExecB(b, st, false, n).how == OutOfFuel;
        assert Sound(x, m, n);
        if !Run(x.c, k, m, n).Running? {
          RunStops(x.c, k, m, n, n');
        }
      }
    } else {
      EndingCorrect(b, vars, k, m, top, out);
    }
  }

  lemma EndingCorrect(b: Block, vars: Vars, k: Kernel, m: State, top: int, out: Trace)
    requires Compilable(b, vars) && Loaded(m, top, StackNeed(b)) && !Diverges(b, InitialStore(m, top, vars))
    ensures var c, st := Image(b, vars), InitialStore(m, top, vars);
            && (Terminates(b, st, out) <==> exists n: nat :: Run(c, k, m, n) == Exited(out))
            && (exists n: nat :: !Run(c, k, m, n).Running?)
    ensures forall n: nat :: Sound(Frame(b, vars, k, top), m, n)
  {
    hide Run, Bytes, CodeP, ExecB, NamesB, InitialStore, Loaded, InFrame;
    var x := Frame(b, vars, k, top);
    var st := InitialStore(m, top, vars);
    var fuel: nat :| ExecB(b, st, false, fuel).how != OutOfFuel;
    var r := ExecB(b, st, false, fuel);
    var n := ProgramFollows(b, vars, k, m, top, fuel);
    assert Run(x.c, k, m, n) == Exited(r.out);
    forall j: nat ensures Sound(x, m, j) {
      if j >= n { RunStops(x.c, k, m, n, j); } else { assert Sound(x, m, j); }
    }
    assert Terminates(b, st, r.out);
    if Terminates(b, st, out) {
      TerminatesOrDiverges(b, st, r.out, out);
      assert Run(x.c, k, m, n) == Exited(out);
    }
    if j: nat :| Run(x.c, k, m, j) == Exited(out) {
      if j < n { RunStops(x.c, k, m, j, n); } else { RunStops(x.c, k, m, n, j); }
      assert out == r.out;
    }
  }

  /** The printed traces agree step by step, also for programs that never end: every output of the
      source is reached by the machine, and every output of the machine is one the source makes. */
  lemma TracesAgree(b: Block, vars: Vars, k: Kernel, m: State, top: int, i: nat)
    requires Compilable(b, vars) && Loaded(m, top, StackNeed(b))
    ensures var st := InitialStore(m, top, vars);
            && (exists n: nat :: OutputIs(Run(Image(b, vars), k, m, n), ExecB(b, st, false, i).out))
            && (exists fuel: nat :: OutputWithin(Run(Image(b, vars), k, m, i), ExecB(b, st, false, fuel).out))
  {
    hide Run, Bytes, CodeP, ExecB, NamesB, InitialStore, Loaded, InFrame;
    var x := Frame(b, vars, k, top);
    var st := InitialStore(m, top, vars);
    var n := ProgramFollows(b, vars, k, m, top, i);
    var r := ExecB(b, st, false, i);
    assert OutputIs(Run(x.c, k, m, n), r.out);
    if n >= i {
      OutputMonotone(x, m, i, n);
      assert OutputWithin(Run(x.c, k, m, i), ExecB(b, st, false, i).out);
    } else {
      RunStops(x.c, k, m, n, i);
      assert OutputWithin(Run(x.c, k, m, i), ExecB(b, st, false, i).out);
    }
  }

  ghost predicate OutputIs(o: Outcome, out: Trace) {
    match o
    case Running(m) => m.out == out
    case Exited(out') => out' == out
    case Fault => false
  }

  ghost predicate OutputWithin(o: Outcome, out: Trace) {
    match o
    case Running(m) => m.out <= out
    case Exited(out') => out' <= out
    case Fault => false
  }

  lemma OutputMonotone(x: Ctx, m: State, i: nat, n: nat)
    requires i <= n && Sound(x, m, i) && Sound(x, m, n)
    ensures forall out :: OutputIs(Run(x.c, x.k, m, n), out) ==> OutputWithin(Run(x.c, x.k, m, i), out)
  {
    hide Run, InFrame;
    var o := Run(x.c, x.k, m, i);
    if o.Running? {
      RunTrans(x.c, x.k, m, i, o.st, n - i);
      RunOutputGrows(x.c, x.k, o.st, n - i);
    } else {
      RunStops(x.c, x.k, m, i, n);
    }
  }
}
