/** The code of an expression computes its value into rax, keeps rsp, rbp, the output and every
    word at or above rsp, and stays inside the stack frame at every step. */
module ExprSimulation {
  import opened Words
  import opened X86
  import opened Machine
  import opened S = BarrelSyntax
  import opened BarrelSemantics
  import opened Codegen

  /** The code, the kernel that serves its system calls, and its stack frame: rbp is `base`,
      the locals are the 256 bytes below it, and temporaries may go down to `lo`. */
  datatype Ctx = Ctx(c: seq<byte>, k: Kernel, base: int, lo: int)

  /** rsp lies between the lowest temporary and the locals, at a whole number of words. */
  ghost predicate InFrame(x: Ctx, m: State) {
    m.rbp == x.base && x.lo <= m.rsp <= x.base - FRAME_BYTES && (x.base - m.rsp) % 8 == 0
  }

  /** `n` steps lead from `m` to `m'`, and every state on the way is in the frame. */
  ghost predicate Goes(x: Ctx, m: State, n: nat, m': State)
    decreases n
  {
    InFrame(x, m) &&
    if n == 0 then m' == m
    else Step(x.c, x.k, m).Running? && Goes(x, Step(x.c, x.k, m).st, n - 1, m')
  }

  lemma {:induction false} GoesTrans(x: Ctx, m: State, n: nat, m1: State, n1: nat, m': State)
    requires Goes(x, m, n, m1) && Goes(x, m1, n1, m')
    ensures Goes(x, m, n + n1, m')
    decreases n
  {
    hide Step, InFrame;
    if n > 0 {
      GoesTrans(x, Step(x.c, x.k, m).st, n - 1, m1, n1, m');
    }
  }

  lemma GoesOne(x: Ctx, m: State, m': State)
    requires Step(x.c, x.k, m) == Running(m') && InFrame(x, m) && InFrame(x, m')
    ensures Goes(x, m, 1, m')
  {
    hide Step, InFrame;
    assert Goes(x, m', 0, m');
  }

  lemma GoesTwo(x: Ctx, m: State, m1: State, m': State)
    requires Step(x.c, x.k, m) == Running(m1) && Step(x.c, x.k, m1) == Running(m')
    requires InFrame(x, m) && InFrame(x, m1) && InFrame(x, m')
    ensures Goes(x, m, 2, m')
  {
    hide Step, InFrame;
    assert Goes(x, m', 0, m');
    assert Goes(x, m1, 1, m');
  }

  /** What `Goes` says about the runs of the machine. */
  lemma {:induction false} GoesRuns(x: Ctx, m: State, n: nat, m': State, j: nat)
    requires Goes(x, m, n, m') && j <= n
    ensures Run(x.c, x.k, m, n) == Running(m')
    ensures Run(x.c, x.k, m, j).Running? && InFrame(x, Run(x.c, x.k, m, j).st)
    decreases n
  {
    hide Step, InFrame;
    if n > 0 {
      GoesRuns(x, Step(x.c, x.k, m).st, n - 1, m', if j > 0 then j - 1 else 0);
    }
  }

  /** Most temporaries the expression keeps pushed at once. */
  function Depth(e: Expr): nat {
    match e
    case Num(_) => 0
    case Var(_) => 0
    case Paren(i) => Depth(i)
    case Neg(a) => Depth(a)
    case Bin(_, l, r) => if Depth(l) > 1 + Depth(r) then Depth(l) else 1 + Depth(r)
  }

  /** Temporaries are bounded by emitted bytes. */
  lemma {:induction false} DepthBelowSize(e: Expr)
    ensures Depth(e) < SizeE(e)
  {
    match e
    case Num(_) =>
    case Var(_) =>
    case Paren(i) => DepthBelowSize(i);
    case Neg(a) => DepthBelowSize(a);
    case Bin(op, l, r) => DepthBelowSize(l); DepthBelowSize(r);
  }

  /** All stack words in [lo, hi) are mapped. */
  ghost predicate Mapped(mem: map<int, u64>, lo: int, hi: int) {
    forall a :: lo <= a < hi && a % 8 == 0 ==> a in mem
  }

  /** The local slots hold the variables of `st`. */
  ghost predicate Locals(mem: map<int, u64>, base: int, vars: Vars, st: Store) {
    |vars| <= MAX_LOCALS &&
    forall i :: 0 <= i < |vars| ==> base + Disp(i) in mem && mem[base + Disp(i)] == Get(st, vars[i])
  }

  /** `m` is in the frame, `depth` more words can be pushed, and all of the frame is mapped. */
  ghost predicate Safe(x: Ctx, m: State, depth: int) {
    && 0 <= x.lo && x.base < W64 && x.base % 8 == 0
    && InFrame(x, m) && x.lo + 8 * depth <= m.rsp
    && Mapped(m.mem, x.lo, x.base)
  }

  /** Words at or above `sp` are kept, and so is the mapped range. */
  ghost predicate SameAbove(mem: map<int, u64>, mem': map<int, u64>, sp: int) {
    mem.Keys == mem'.Keys && forall a :: a in mem && a >= sp ==> mem'[a] == mem[a]
  }

  /** From `m` the machine has computed `v`, moving `len` bytes ahead. */
  ghost predicate Computed(m: State, m': State, len: nat, v: u64) {
    && m'.pc == m.pc + len && m'.rax == v
    && m'.rsp == m.rsp && m'.rbp == m.rbp && m'.out == m.out
    && SameAbove(m.mem, m'.mem, m.rsp)
  }

  lemma LocalsKept(mem: map<int, u64>, mem': map<int, u64>, sp: int, base: int, vars: Vars, st: Store)
    requires Locals(mem, base, vars, st) && SameAbove(mem, mem', sp) && sp <= base - FRAME_BYTES
    ensures Locals(mem', base, vars, st)
  {
  }

  /** The operator code works on rax and rcx. */
  lemma OpRuns(x: Ctx, op: Op, m: State) returns (n: nat, m': State)
    requires CodeAt(x.c, m.pc, OpCode(op)) && InFrame(x, m)
    ensures Goes(x, m, n, m')
    ensures m'.pc == m.pc + SizeOp(op) && m'.rax == Apply(op, m.rax, m.rcx)
    ensures m'.rsp == m.rsp && m'.rbp == m.rbp && m'.out == m.out && m'.mem == m.mem
  {
    hide CodeAt, Step, Decode, Goes;
    if op == Div {
      n, m' := DivRuns(x, m);
    } else if op == Add || op == Sub || op == Mul {
      n := 1;
      StepAt(x.c, x.k, m, OpCode(op));
      m' := Step(x.c, x.k, m).st;
      GoesOne(x, m, m');
    } else {
      n := 3;
      m' := CompareRuns(x, op, m);
    }
  }

  lemma CompareRuns(x: Ctx, op: Op, m: State) returns (m': State)
    requires CodeAt(x.c, m.pc, OpCode(op)) && Prec(op) == 0 && InFrame(x, m)
    ensures Goes(x, m, 3, m')
    ensures m'.pc == m.pc + 10 && m'.rax == Apply(op, m.rax, m.rcx)
    ensures m'.rsp == m.rsp && m'.rbp == m.rbp && m'.out == m.out && m'.mem == m.mem
  {
    hide CodeAt, Step, Decode, Goes, Perform, Encode, Apply, CondOf, Holds;
    var cc := CondOf(op);
    var code := OpCode(op);
    assert code[1..] == [SetAl(cc), MovzxRaxAl] && code[1..][1..] == [MovzxRaxAl];
    StepAt(x.c, x.k, m, code);
    var m1 := m.(pc := m.pc + 3, flags := Some(Flags(m.rax == m.rcx, m.rax < m.rcx)));
    PerformCompare(x.k, m.(pc := m.pc + 3));
    StepAt(x.c, x.k, m1, code[1..]);
    PerformSet(x.k, m1.(pc := m1.pc + 3), cc);
    var m2 := Step(x.c, x.k, m1).st;
    GoesTwo(x, m, m1, m2);
    StepAt(x.c, x.k, m2, code[1..][1..]);
    PerformMovzx(x.k, m2.(pc := m2.pc + 4));
    m' := Step(x.c, x.k, m2).st;
    GoesOne(x, m2, m');
    GoesTrans(x, m, 2, m2, 1, m');
    CompareMeans(op, m.rax, m.rcx);
  }

  lemma PerformCompare(k: Kernel, m: State)
    ensures Perform(CmpRaxRcx, k, m) == Running(m.(flags := Some(Flags(m.rax == m.rcx, m.rax < m.rcx))))
  {
  }

  lemma PerformSet(k: Kernel, m: State, cc: Cond)
    requires m.flags.Some?
    ensures var v := m.rax - m.rax % 256 + Bit(Holds(cc, m.flags.value));
            0 <= v < W64 && v % 256 == Bit(Holds(cc, m.flags.value)) &&
              Perform(SetAl(cc), k, m) == Running(m.(rax := v))
  {
    hide Holds;
    LowByte(m.rax, Holds(cc, m.flags.value));
  }

  lemma PerformMovzx(k: Kernel, m: State)
    ensures Perform(MovzxRaxAl, k, m) == Running(m.(rax := m.rax % 256))
  {
  }

  /** The condition codes are the unsigned comparisons. */
  lemma CompareMeans(op: Op, a: u64, b: u64)
    requires Prec(op) == 0
    ensures Bit(Holds(CondOf(op), Flags(a == b, a < b))) == Apply(op, a, b)
  {
  }

  /** `setcc al; movzx rax, al` leaves the bit alone in rax. */
  lemma LowByte(x: u64, b: bool)
    ensures 0 <= x - x % 256 + Bit(b) < W64 && (x - x % 256 + Bit(b)) % 256 == Bit(b)
  {
  }

  const DIVIDE: seq<Instr> := [XorEdxEdx, DivRcx, Jmp(2), XorEaxEax]

  /** The two jumps of the division: a zero divisor skips `div` and yields zero. */
  lemma DivRuns(x: Ctx, m: State) returns (n: nat, m': State)
    requires CodeAt(x.c, m.pc, OpCode(Div)) && InFrame(x, m)
    ensures Goes(x, m, n, m')
    ensures m'.pc == m.pc + 21 && m'.rax == Apply(Div, m.rax, m.rcx)
    ensures m'.rsp == m.rsp && m'.rbp == m.rbp && m'.out == m.out && m'.mem == m.mem
  {
    hide CodeAt, Step, Decode, Goes;
    var code := OpCode(Div);
    StepAt(x.c, x.k, m, code);
    var m1 := Step(x.c, x.k, m).st;
    StepAt(x.c, x.k, m1, code[1..]);
    var m2 := Step(x.c, x.k, m1).st;
    GoesTwo(x, m, m1, m2);
    assert code[1..][1..] == DIVIDE;
    if m.rcx == 0 {
      m' := DivSkips(x, m2, m.pc + 9);
      GoesTrans(x, m, 2, m2, 1, m');
      n := 3;
    } else {
      m' := DivDivides(x, m2);
      GoesTrans(x, m, 2, m2, 3, m');
      n := 5;
    }
  }

  lemma DivSkips(x: Ctx, m: State, pc: int) returns (m': State)
    requires CodeAt(x.c, pc, DIVIDE) && m.pc == pc + 10 && InFrame(x, m)
    ensures Goes(x, m, 1, m') && m'.pc == pc + 12 && m'.rax == 0
    ensures m'.rsp == m.rsp && m'.rbp == m.rbp && m'.out == m.out && m'.mem == m.mem
  {
    hide CodeAt, Step, Decode, Goes;
    CodeHead(x.c, pc, DIVIDE);
    CodeHead(x.c, pc + 2, DIVIDE[1..]);
    CodeHead(x.c, pc + 5, DIVIDE[1..][1..]);
    StepAt(x.c, x.k, m, DIVIDE[1..][1..][1..]);
    m' := Step(x.c, x.k, m).st;
    GoesOne(x, m, m');
  }

  lemma DivDivides(x: Ctx, m: State) returns (m': State)
    requires CodeAt(x.c, m.pc, DIVIDE) && m.rcx != 0 && InFrame(x, m)
    ensures Goes(x, m, 3, m') && m'.pc == m.pc + 12 && m'.rax == m.rax / m.rcx
    ensures m'.rsp == m.rsp && m'.rbp == m.rbp && m'.out == m.out && m'.mem == m.mem
  {
    hide CodeAt, Step, Decode, Goes;
    StepAt(x.c, x.k, m, DIVIDE);
    var m1 := Step(x.c, x.k, m).st;
    StepAt(x.c, x.k, m1, DIVIDE[1..]);
    var m2 := Step(x.c, x.k, m1).st;
    GoesTwo(x, m, m1, m2);
    StepAt(x.c, x.k, m2, DIVIDE[1..][1..]);
    m' := Step(x.c, x.k, m2).st;
    GoesOne(x, m2, m');
    GoesTrans(x, m, 2, m2, 1, m');
  }

  /** Compiled expressions compute the value of the expression. */
  lemma {:induction false} ExprRuns(x: Ctx, e: Expr, vars: Vars, st: Store, m: State) returns (n: nat, m': State)
    requires Declares(vars, Names(e)) && CodeAt(x.c, m.pc, CodeE(e, vars))
    requires Locals(m.mem, x.base, vars, st) && Safe(x, m, Depth(e))
    ensures Goes(x, m, n, m')
    ensures Computed(m, m', SizeE(e), Eval(e, st))
    decreases e
  {
    hide CodeAt, Step, Decode, Goes;
    match e
    case Num(v) =>
      n := 1;
      StepAt(x.c, x.k, m, CodeE(e, vars));
      m' := Step(x.c, x.k, m).st;
      GoesOne(x, m, m');
    case Var(y) =>
      n := 1;
      m' := VarRuns(x, y, vars, st, m);
    case Paren(i) =>
      n, m' := ExprRuns(x, i, vars, st, m);
    case Neg(a) =>
      CodeSplit(x.c, m.pc, CodeE(a, vars), [NegRax]);
      SizeOfE(a, vars);
      var n1, m1 := ExprRuns(x, a, vars, st, m);
      m' := NegRuns(x, m1);
      GoesTrans(x, m, n1, m1, 1, m');
      n := n1 + 1;
    case Bin(op, l, r) =>
      n, m' := BinRuns(x, op, l, r, vars, st, m);
  }

  lemma NegRuns(x: Ctx, m: State) returns (m': State)
    requires CodeAt(x.c, m.pc, [NegRax]) && InFrame(x, m)
    ensures Goes(x, m, 1, m') && m' == m.(pc := m.pc + 3, rax := Wrap(0 - m.rax), flags := None)
  {
    hide CodeAt, Step, Decode, Goes;
    StepAt(x.c, x.k, m, [NegRax]);
    m' := Step(x.c, x.k, m).st;
    GoesOne(x, m, m');
  }

  lemma VarRuns(x: Ctx, y: Name, vars: Vars, st: Store, m: State) returns (m': State)
    requires Declares(vars, {y}) && CodeAt(x.c, m.pc, CodeE(Var(y), vars))
    requires Locals(m.mem, x.base, vars, st) && Safe(x, m, 0)
    ensures Goes(x, m, 1, m')
    ensures Computed(m, m', 7, Get(st, y))
  {
    hide CodeAt, Step, Decode, Goes, Perform, Encode;
    StepAt(x.c, x.k, m, CodeE(Var(y), vars));
    var i := SlotOf(vars, y);
    assert m.mem[x.base + Disp(i)] == Get(st, vars[i]);
    PerformLoad(x.k, m.(pc := m.pc + 7), Disp(i));
    m' := Step(x.c, x.k, m).st;
    GoesOne(x, m, m');
  }

  lemma PerformLoad(k: Kernel, m: State, d: int)
    ensures Wrap(m.rbp + d) in m.mem ==> Perform(LoadRax(d), k, m) == Running(m.(rax := m.mem[Wrap(m.rbp + d)]))
  {
  }

  lemma {:induction false} BinRuns(x: Ctx, op: Op, l: Expr, r: Expr, vars: Vars, st: Store, m: State)
    returns (n: nat, m': State)
    requires Declares(vars, Names(Bin(op, l, r))) && CodeAt(x.c, m.pc, CodeE(Bin(op, l, r), vars))
    requires Locals(m.mem, x.base, vars, st) && Safe(x, m, Depth(Bin(op, l, r)))
    ensures Goes(x, m, n, m')
    ensures Computed(m, m', SizeE(Bin(op, l, r)), Eval(Bin(op, l, r), st))
    decreases Bin(op, l, r), 0, 2
  {
    hide CodeAt, Goes, OpCode, Apply, Size, Mapped, Locals;
    BinSplit(x.c, m.pc, op, l, r, vars);
    assert SizeE(Bin(op, l, r)) == SizeE(l) + 1 + SizeE(r) + 4 + SizeOp(op);
    assert Eval(Bin(op, l, r), st) == Apply(op, Eval(l, st), Eval(r, st));
    hide Names, CodeE, SizeE, Depth, Eval, SizeOp;
    var n3, m3 := BinOperands(x, op, l, r, vars, st, m);
    hide Safe;
    var n5, m5 := BinFinish(x, op, m3);
    GoesTrans(x, m, n3, m3, n5, m5);
    n, m' := n3 + n5, m5;
  }

  /** Both operands: the left one is on the stack, the right one in rax. */
  lemma {:induction false} BinOperands(x: Ctx, op: Op, l: Expr, r: Expr, vars: Vars, st: Store, m: State)
    returns (n: nat, m': State)
    requires Declares(vars, Names(Bin(op, l, r))) && CodeAt(x.c, m.pc, CodeE(Bin(op, l, r), vars))
    requires Locals(m.mem, x.base, vars, st) && Safe(x, m, Depth(Bin(op, l, r)))
    ensures Goes(x, m, n, m') && InFrame(x, m')
    ensures m'.pc == m.pc + SizeE(l) + 1 + SizeE(r) && m'.rax == Eval(r, st) && m'.rsp == m.rsp - 8
    ensures m'.rbp == m.rbp && m'.out == m.out && SameAbove(m.mem, m'.mem, m.rsp)
    ensures m'.rsp in m'.mem && m'.mem[m'.rsp] == Eval(l, st)
    decreases Bin(op, l, r), 0, 1
  {
    hide CodeAt, Goes, OpCode, Apply, Size, Mapped, Locals;
    BinSplit(x.c, m.pc, op, l, r, vars);
    assert Declares(vars, Names(l)) && Declares(vars, Names(r));
    assert Depth(l) <= Depth(Bin(op, l, r)) && 1 + Depth(r) <= Depth(Bin(op, l, r));
    hide Names, CodeE, SizeE, Depth, Eval, SizeOp;
    var n2, m2 := LeftPushed(x, op, l, r, vars, st, m);
    n, m' := ExprRuns(x, r, vars, st, m2);
    GoesTrans(x, m, n2, m2, n, m');
    hide Safe, Locals;
    AboveKept(m.mem, m2.mem, m'.mem, m.rsp);
    n := n2 + n;
  }

  /** The left operand, pushed. */
  lemma {:induction false} LeftPushed(x: Ctx, op: Op, l: Expr, r: Expr, vars: Vars, st: Store, m: State)
    returns (n: nat, m': State)
    requires Declares(vars, Names(l)) && CodeAt(x.c, m.pc, CodeE(l, vars)) && CodeAt(x.c, m.pc + SizeE(l), [PushRax])
    requires Locals(m.mem, x.base, vars, st) && Safe(x, m, Depth(Bin(op, l, r)))
    ensures Goes(x, m, n, m') && Safe(x, m', Depth(r)) && Locals(m'.mem, x.base, vars, st)
    ensures m'.pc == m.pc + SizeE(l) + 1 && m'.rsp == m.rsp - 8 && m'.rbp == m.rbp && m'.out == m.out
    ensures SameAbove(m.mem, m'.mem, m.rsp) && m'.rsp in m'.mem && m'.mem[m'.rsp] == Eval(l, st)
    decreases Bin(op, l, r), 0, 0
  {
    hide CodeAt, Goes, Mapped, Locals;
    assert Depth(l) <= Depth(Bin(op, l, r)) && 1 + Depth(r) <= Depth(Bin(op, l, r));
    hide Names, CodeE, SizeE, Depth, Eval;
    var n1, m1 := ExprRuns(x, l, vars, st, m);
    MappedKept(m.mem, m1.mem, x.lo, x.base);
    m' := PushRuns(x, m1);
    GoesTrans(x, m, n1, m1, 1, m');
    LocalsKept(m.mem, m'.mem, m.rsp, x.base, vars, st);
    n := n1 + 1;
  }

  /** The pushed word survives the right operand, and so does everything above it. */
  lemma AboveKept(m0: map<int, u64>, m2: map<int, u64>, m3: map<int, u64>, sp: int)
    requires SameAbove(m0, m2, sp) && SameAbove(m2, m3, sp - 8)
    ensures SameAbove(m0, m3, sp) && (sp - 8 in m2 ==> sp - 8 in m3 && m3[sp - 8] == m2[sp - 8])
  {
  }

  /** After the right operand: the left one is popped and the operator applied. */
  lemma BinFinish(x: Ctx, op: Op, m: State) returns (n: nat, m': State)
    requires CodeAt(x.c, m.pc, [MovRcxRax, PopRax]) && CodeAt(x.c, m.pc + 4, OpCode(op))
    requires InFrame(x, m) && m.rsp in m.mem && m.rsp + 8 <= x.base - FRAME_BYTES && x.base < W64
    ensures Goes(x, m, n, m')
    ensures m'.pc == m.pc + 4 + SizeOp(op) && m'.rax == Apply(op, m.mem[m.rsp], m.rax)
    ensures m'.rsp == m.rsp + 8 && m'.rbp == m.rbp && m'.out == m.out && m'.mem == m.mem
  {
    hide CodeAt, Goes, OpCode, Apply, SizeOp;
    var m4 := PopRuns(x, m);
    n, m' := OpRuns(x, op, m4);
    GoesTrans(x, m, 2, m4, n, m');
    n := 2 + n;
  }

  lemma MappedKept(mem: map<int, u64>, mem': map<int, u64>, lo: int, hi: int)
    requires Mapped(mem, lo, hi) && mem.Keys == mem'.Keys
    ensures Mapped(mem', lo, hi)
  {
    assert forall a :: a in mem <==> a in mem' by { assert forall a :: a in mem.Keys <==> a in mem'.Keys; }
  }

  /** Where the parts of a binary expression sit. */
  lemma BinSplit(c: seq<byte>, pc: int, op: Op, l: Expr, r: Expr, vars: Vars)
    requires Declares(vars, Names(Bin(op, l, r))) && CodeAt(c, pc, CodeE(Bin(op, l, r), vars))
    ensures CodeAt(c, pc, CodeE(l, vars)) && CodeAt(c, pc + SizeE(l), [PushRax])
    ensures CodeAt(c, pc + SizeE(l) + 1, CodeE(r, vars))
    ensures CodeAt(c, pc + SizeE(l) + 1 + SizeE(r), [MovRcxRax, PopRax])
    ensures CodeAt(c, pc + SizeE(l) + 1 + SizeE(r) + 4, OpCode(op))
  {
    hide CodeAt, Size, OpCode;
    var tail := [MovRcxRax, PopRax] + OpCode(op);
    SizeOfE(l, vars);
    SizeOfE(r, vars);
    CodeSplit(c, pc, CodeE(l, vars), [PushRax] + (CodeE(r, vars) + tail));
    CodeSplit(c, pc + SizeE(l), [PushRax], CodeE(r, vars) + tail);
    Size1([PushRax]);
    CodeSplit(c, pc + SizeE(l) + 1, CodeE(r, vars), tail);
    CodeSplit(c, pc + SizeE(l) + 1 + SizeE(r), [MovRcxRax, PopRax], OpCode(op));
    Size1([MovRcxRax, PopRax]);
  }

  lemma PushRuns(x: Ctx, m: State) returns (m': State)
    requires CodeAt(x.c, m.pc, [PushRax]) && Safe(x, m, 1)
    ensures Goes(x, m, 1, m')
    ensures m' == m.(pc := m.pc + 1, rsp := m.rsp - 8, mem := m.mem[m.rsp - 8 := m.rax])
    ensures SameAbove(m.mem, m'.mem, m.rsp) && Mapped(m'.mem, x.lo, x.base)
  {
    hide CodeAt, Step, Decode, Goes;
    StepAt(x.c, x.k, m, [PushRax]);
    m' := Step(x.c, x.k, m).st;
    GoesOne(x, m, m');
  }

  lemma PopRuns(x: Ctx, m: State) returns (m': State)
    requires CodeAt(x.c, m.pc, [MovRcxRax, PopRax]) && InFrame(x, m) && m.rsp in m.mem
    requires m.rsp + 8 <= x.base - FRAME_BYTES && x.base < W64
    ensures Goes(x, m, 2, m')
    ensures m' == m.(pc := m.pc + 4, rcx := m.rax, rax := m.mem[m.rsp], rsp := m.rsp + 8)
  {
    hide CodeAt, Step, Decode, Goes;
    StepAt(x.c, x.k, m, [MovRcxRax, PopRax]);
    var m1 := Step(x.c, x.k, m).st;
    StepAt(x.c, x.k, m1, [MovRcxRax, PopRax][1..]);
    m' := Step(x.c, x.k, m1).st;
    GoesTwo(x, m, m1, m');
  }
}
