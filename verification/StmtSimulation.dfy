/** The code of a statement does what the statement does, with the same output, however it ends. */
module StmtSimulation {
  import opened Words
  import opened X86
  import opened Machine
  import opened S = BarrelSyntax
  import opened BarrelSemantics
  import opened Codegen
  import opened ExprSimulation

  /** rsp, rbp and the mapped range are as before. */
  ghost predicate Kept(m: State, m': State) {
    m'.rsp == m.rsp && m'.rbp == m.rbp && m'.mem.Keys == m.mem.Keys
  }

  lemma SafeKept(x: Ctx, m: State, m': State, d: int, d': int)
    requires Safe(x, m, d) && Kept(m, m') && d' <= d
    ensures Safe(x, m', d') && InFrame(x, m')
  {
    assert forall a :: a in m.mem <==> a in m'.mem by { assert forall a :: a in m.mem.Keys <==> a in m'.mem.Keys; }
  }

  /** After `n` steps the machine in state `m'` has done what execution result `r` says of a
      piece of code of `len` bytes started in state `m`. */
  ghost predicate Did(x: Ctx, m: State, m': State, n: nat, r: Result, len: nat, brk: Distance, fuel: nat, vars: Vars) {
    && m'.out == m.out + r.out
    && match r.how
       case OutOfFuel => n >= fuel
       case Normal => m'.pc == m.pc + len && Kept(m, m') && Locals(m'.mem, x.base, vars, r.store)
       case Broke =>
         brk.Some? && m'.pc == m.pc + len + brk.value && Kept(m, m') && Locals(m'.mem, x.base, vars, r.store)
  }

  // ----- Guards -----

  /** A condition followed by `test rax, rax; je rel` falls through when it is non-zero. */
  lemma GuardRuns(x: Ctx, e: Expr, rel: int, vars: Vars, st: Store, m: State)
    returns (n: nat, m': State)
    requires Declares(vars, Names(e)) && CodeAt(x.c, m.pc, CodeE(e, vars))
    requires CodeAt(x.c, m.pc + SizeE(e), [TestRaxRax, Je(rel)])
    requires Locals(m.mem, x.base, vars, st) && Safe(x, m, Depth(e))
    ensures Goes(x, m, n, m')
    ensures m'.pc == m.pc + SizeE(e) + 9 + (if Eval(e, st) == 0 then rel else 0)
    ensures Kept(m, m') && m'.out == m.out && Locals(m'.mem, x.base, vars, st)
  {
    hide CodeAt, Goes, Step, Decode, Eval, Names, CodeE, SizeE, Depth;
    var n1, m1 := ExprRuns(x, e, vars, st, m);
    LocalsKept(m.mem, m1.mem, m.rsp, x.base, vars, st);
    m' := TestRuns(x, rel, m1);
    GoesTrans(x, m, n1, m1, 2, m');
    n := n1 + 2;
  }

  lemma TestRuns(x: Ctx, rel: int, m: State) returns (m': State)
    requires CodeAt(x.c, m.pc, [TestRaxRax, Je(rel)]) && InFrame(x, m)
    ensures Goes(x, m, 2, m')
    ensures m' == m.(pc := m.pc + 9 + (if m.rax == 0 then rel else 0), flags := m'.flags)
  {
    hide CodeAt, Goes, Step, Decode;
    StepAt(x.c, x.k, m, [TestRaxRax, Je(rel)]);
    var m1 := Step(x.c, x.k, m).st;
    StepAt(x.c, x.k, m1, [TestRaxRax, Je(rel)][1..]);
    m' := Step(x.c, x.k, m1).st;
    GoesTwo(x, m, m1, m');
  }

  lemma JmpRuns(x: Ctx, rel: int, m: State) returns (m': State)
    requires CodeAt(x.c, m.pc, [Jmp(rel)]) && InFrame(x, m)
    ensures Goes(x, m, 1, m') && m' == m.(pc := m.pc + 5 + rel)
  {
    hide CodeAt, Goes, Step, Decode;
    StepAt(x.c, x.k, m, [Jmp(rel)]);
    m' := Step(x.c, x.k, m).st;
    GoesOne(x, m, m');
  }

  // ----- Simple statements -----

  lemma LetRuns(x: Ctx, y: Name, e: Expr, vars: Vars, st: Store, m: State)
    returns (n: nat, m': State)
    requires Declares(vars, NamesS(Let(y, e))) && Distinct(vars) && CodeAt(x.c, m.pc, CodeS(Let(y, e), vars, None))
    requires Locals(m.mem, x.base, vars, st) && Safe(x, m, Depth(e))
    ensures Goes(x, m, n, m')
    ensures m'.pc == m.pc + SizeE(e) + 7 && Kept(m, m') && m'.out == m.out
    ensures Locals(m'.mem, x.base, vars, st[y := Eval(e, st)])
  {
    hide CodeAt, Goes, Step, Decode, Eval, Names, CodeE, SizeE, Depth, Size;
    var i := SlotOf(vars, y);
    CodeSplit(x.c, m.pc, CodeE(e, vars), [StoreRax(Disp(i))]);
    SizeOfE(e, vars);
    var n1, m1 := ExprRuns(x, e, vars, st, m);
    LocalsKept(m.mem, m1.mem, m.rsp, x.base, vars, st);
    m' := StoreRuns(x, i, vars, m1);
    StoreUpdates(m1.mem, x.base, vars, st, i, Eval(e, st));
    GoesTrans(x, m, n1, m1, 1, m');
    n := n1 + 1;
  }

  lemma StoreRuns(x: Ctx, i: nat, vars: Vars, m: State) returns (m': State)
    requires CodeAt(x.c, m.pc, [StoreRax(Disp(i))]) && i < |vars| <= MAX_LOCALS
    requires InFrame(x, m) && 0 <= x.lo && x.base < W64 && x.base + Disp(i) in m.mem
    ensures Goes(x, m, 1, m')
    ensures m' == m.(pc := m.pc + 7, mem := m.mem[x.base + Disp(i) := m.rax])
  {
    hide CodeAt, Goes, Step, Decode;
    StepAt(x.c, x.k, m, [StoreRax(Disp(i))]);
    m' := Step(x.c, x.k, m).st;
    GoesOne(x, m, m');
  }

  lemma StoreUpdates(mem: map<int, u64>, base: int, vars: Vars, st: Store, i: nat, v: u64)
    requires i < |vars| && Distinct(vars) && Locals(mem, base, vars, st)
    ensures Locals(mem[base + Disp(i) := v], base, vars, st[vars[i] := v])
    ensures mem[base + Disp(i) := v].Keys == mem.Keys
  {
    var mem', st' := mem[base + Disp(i) := v], st[vars[i] := v];
    assert base + Disp(i) in mem && mem[base + Disp(i)] == Get(st, vars[i]);
    forall j | 0 <= j < |vars| ensures base + Disp(j) in mem' && mem'[base + Disp(j)] == Get(st', vars[j]) {
      assert base + Disp(j) in mem && mem[base + Disp(j)] == Get(st, vars[j]);
    }
  }

  lemma PrintRuns(x: Ctx, e: Expr, nl: bool, vars: Vars, st: Store, m: State)
    returns (n: nat, m': State)
    requires Declares(vars, Names(e)) && CodeAt(x.c, m.pc, CodeE(e, vars) + PrintCode(nl))
    requires Locals(m.mem, x.base, vars, st) && Safe(x, m, Depth(e))
    ensures Goes(x, m, n, m')
    ensures m'.pc == m.pc + SizeE(e) + (if nl then 15 else 12) && Kept(m, m')
    ensures m'.out == m.out + [Machine.Print(Eval(e, st), nl)] && Locals(m'.mem, x.base, vars, st)
  {
    hide CodeAt, Goes, Step, Decode, Eval, Names, CodeE, SizeE, Depth, Size;
    CodeSplit(x.c, m.pc, CodeE(e, vars), PrintCode(nl));
    SizeOfE(e, vars);
    var n1, m1 := ExprRuns(x, e, vars, st, m);
    LocalsKept(m.mem, m1.mem, m.rsp, x.base, vars, st);
    m' := PrintCallRuns(x, nl, m1);
    GoesTrans(x, m, n1, m1, 4, m');
    n := n1 + 4;
  }

  lemma PrintCallRuns(x: Ctx, nl: bool, m: State) returns (m': State)
    requires CodeAt(x.c, m.pc, PrintCode(nl)) && InFrame(x, m)
    ensures Goes(x, m, 4, m')
    ensures m'.pc == m.pc + (if nl then 15 else 12) && m'.out == m.out + [Machine.Print(m.rax, nl)]
    ensures m'.rsp == m.rsp && m'.rbp == m.rbp && m'.mem == m.mem
  {
    hide CodeAt, Goes, Step, Decode;
    var p := PrintCode(nl);
    StepAt(x.c, x.k, m, p);
    var m1 := Step(x.c, x.k, m).st;
    StepAt(x.c, x.k, m1, p[1..]);
    var m2 := Step(x.c, x.k, m1).st;
    GoesTwo(x, m, m1, m2);
    assert p[1..][1..] == [MovEaxImm(32), Syscall];
    m' := PrintTrapRuns(x, m2);
    GoesTrans(x, m, 2, m2, 2, m');
  }

  /** `mov eax, 32; syscall` prints rdi, and a newline when rsi is not zero. */
  lemma PrintTrapRuns(x: Ctx, m: State) returns (m': State)
    requires CodeAt(x.c, m.pc, [MovEaxImm(32), Syscall]) && InFrame(x, m)
    ensures Goes(x, m, 2, m')
    ensures m'.pc == m.pc + 7 && m'.out == m.out + [Machine.Print(m.rdi, m.rsi != 0)]
    ensures m'.rsp == m.rsp && m'.rbp == m.rbp && m'.mem == m.mem
  {
    hide CodeAt, Goes, Step, Decode;
    var p := [MovEaxImm(32), Syscall];
    StepAt(x.c, x.k, m, p);
    var m1 := Step(x.c, x.k, m).st;
    StepAt(x.c, x.k, m1, p[1..]);
    m' := Step(x.c, x.k, m1).st;
    GoesTwo(x, m, m1, m');
  }

  // ----- All statements -----

  lemma {:induction false} StmtRuns(x: Ctx, s: Stmt, vars: Vars, brk: Distance, st: Store, fuel: nat, m: State)
    returns (n: nat, m': State)
    requires Declares(vars, NamesS(s)) && Distinct(vars) && CodeAt(x.c, m.pc, CodeS(s, vars, brk))
    requires Locals(m.mem, x.base, vars, st) && Safe(x, m, SizeS(s))
    ensures Goes(x, m, n, m')
    ensures Did(x, m, m', n, Exec(s, st, brk.Some?, fuel), SizeS(s), brk, fuel, vars)
    decreases fuel, s, 2
  {
    hide CodeAt, Goes, Step, Decode, Eval, Names, CodeE, SizeE, Depth, Size, Locals, Safe;
    match s
    case Empty => n, m' := 0, m; GoesZero(x, m, SizeS(s));
    case Let(y, e) =>
      DepthBelowSize(e);
      SafeKept(x, m, m, SizeS(s), Depth(e));
      n, m' := LetRuns(x, y, e, vars, st, m);
    case Print(e, nl) =>
      DepthBelowSize(e);
      SafeKept(x, m, m, SizeS(s), Depth(e));
      n, m' := PrintRuns(x, e, nl, vars, st, m);
    case If(cond, t) => n, m' := IfRuns(x, cond, t, vars, brk, st, fuel, m);
    case IfElse(cond, t, e) => n, m' := IfElseRuns(x, cond, t, e, vars, brk, st, fuel, m);
    case While(cond, b) => n, m' := WhileRuns(x, cond, b, vars, brk, st, fuel, m);
    case Loop(b) => n, m' := LoopRuns(x, b, vars, brk, st, fuel, m);
    case Break =>
      n := 1;
      SafeKept(x, m, m, SizeS(s), SizeS(s));
      m' := JmpRuns(x, BreakRel(brk), m);
  }

  lemma GoesZero(x: Ctx, m: State, d: int)
    requires Safe(x, m, d)
    ensures Goes(x, m, 0, m)
  {
  }

  lemma {:induction false} IfRuns(x: Ctx, cond: Expr, t: Block, vars: Vars, brk: Distance, st: Store, fuel: nat,
                                  m: State)
    returns (n: nat, m': State)
    requires Declares(vars, NamesS(If(cond, t))) && Distinct(vars) && CodeAt(x.c, m.pc, CodeS(If(cond, t), vars, brk))
    requires Locals(m.mem, x.base, vars, st) && Safe(x, m, SizeS(If(cond, t)))
    ensures Goes(x, m, n, m')
    ensures Did(x, m, m', n, Exec(If(cond, t), st, brk.Some?, fuel), SizeS(If(cond, t)), brk, fuel, vars)
    decreases fuel, If(cond, t), 1
  {
    hide CodeAt, Goes, Step, Decode, Eval, Names, CodeE, SizeE, Depth, Size, Locals, Safe, CodeB, ExecB;
    IfSplit(x.c, m.pc, cond, t, vars, brk);
    DepthBelowSize(cond);
    SafeKept(x, m, m, SizeS(If(cond, t)), Depth(cond));
    var n1, m1 := GuardRuns(x, cond, SizeB(t), vars, st, m);
    if Eval(cond, st) == 0 {
      n, m' := n1, m1;
    } else {
      SafeKept(x, m, m1, SizeS(If(cond, t)), SizeB(t));
      var n2, m2 := BlockRuns(x, t, vars, brk, st, fuel, m1);
      GoesTrans(x, m, n1, m1, n2, m2);
      n, m' := n1 + n2, m2;
    }
  }

  lemma IfSplit(c: seq<byte>, pc: int, cond: Expr, t: Block, vars: Vars, brk: Distance)
    requires Declares(vars, NamesS(If(cond, t))) && CodeAt(c, pc, CodeS(If(cond, t), vars, brk))
    ensures CodeAt(c, pc, CodeE(cond, vars)) && CodeAt(c, pc + SizeE(cond), [TestRaxRax, Je(SizeB(t))])
    ensures CodeAt(c, pc + SizeE(cond) + 9, CodeB(t, vars, brk))
  {
    hide CodeAt, Size, CodeE, CodeB, Names, SizeE, Encode;
    var test := [TestRaxRax, Je(SizeB(t))];
    SizeOfE(cond, vars);
    CodeSplit(c, pc, CodeE(cond, vars), test + CodeB(t, vars, brk));
    CodeSplit(c, pc + SizeE(cond), test, CodeB(t, vars, brk));
    SizeOfTest(CodeB(t, vars, brk), SizeB(t));
  }

  lemma {:induction false} IfElseRuns(x: Ctx, cond: Expr, t: Block, e: Block, vars: Vars, brk: Distance, st: Store,
                                      fuel: nat, m: State)
    returns (n: nat, m': State)
    requires Declares(vars, NamesS(IfElse(cond, t, e))) && Distinct(vars)
    requires CodeAt(x.c, m.pc, CodeS(IfElse(cond, t, e), vars, brk))
    requires Locals(m.mem, x.base, vars, st) && Safe(x, m, SizeS(IfElse(cond, t, e)))
    ensures Goes(x, m, n, m')
    ensures Did(x, m, m', n, Exec(IfElse(cond, t, e), st, brk.Some?, fuel), SizeS(IfElse(cond, t, e)), brk, fuel, vars)
    decreases fuel, IfElse(cond, t, e), 1
  {
    hide CodeAt, Goes, Step, Decode, Eval, Names, CodeE, SizeE, Depth, Size, Locals, Safe, CodeB, ExecB;
    var brk' := Further(brk, 5 + SizeB(e));
    var size := SizeS(IfElse(cond, t, e));
    IfElseSplit(x.c, m.pc, cond, t, e, vars, brk);
    DepthBelowSize(cond);
    SafeKept(x, m, m, size, Depth(cond));
    var n1, m1 := GuardRuns(x, cond, SizeB(t) + 5, vars, st, m);
    if Eval(cond, st) == 0 {
      SafeKept(x, m, m1, size, SizeB(e));
      var n2, m2 := BlockRuns(x, e, vars, brk, st, fuel, m1);
      GoesTrans(x, m, n1, m1, n2, m2);
      n, m' := n1 + n2, m2;
    } else {
      SafeKept(x, m, m1, size, SizeB(t));
      var n2, m2 := BlockRuns(x, t, vars, brk', st, fuel, m1);
      GoesTrans(x, m, n1, m1, n2, m2);
      n, m' := n1 + n2, m2;
      if ExecB(t, st, brk.Some?, fuel).how == Normal {
        var m3 := JmpRuns(x, SizeB(e), m2);
        GoesTrans(x, m, n1 + n2, m2, 1, m3);
        n, m' := n1 + n2 + 1, m3;
      }
    }
  }

  lemma IfElseSplit(c: seq<byte>, pc: int, cond: Expr, t: Block, e: Block, vars: Vars, brk: Distance)
    requires Declares(vars, NamesS(IfElse(cond, t, e))) && CodeAt(c, pc, CodeS(IfElse(cond, t, e), vars, brk))
    ensures CodeAt(c, pc, CodeE(cond, vars)) && CodeAt(c, pc + SizeE(cond), [TestRaxRax, Je(SizeB(t) + 5)])
    ensures CodeAt(c, pc + SizeE(cond) + 9, CodeB(t, vars, Further(brk, 5 + SizeB(e))))
    ensures CodeAt(c, pc + SizeE(cond) + 9 + SizeB(t), [Jmp(SizeB(e))])
    ensures CodeAt(c, pc + SizeE(cond) + 9 + SizeB(t) + 5, CodeB(e, vars, brk))
  {
    hide CodeAt, Size, CodeE, CodeB, Names, SizeE, Encode;
    var test := [TestRaxRax, Je(SizeB(t) + 5)];
    var t' := CodeB(t, vars, Further(brk, 5 + SizeB(e)));
    var e' := [Jmp(SizeB(e))] + CodeB(e, vars, brk);
    SizeOfE(cond, vars);
    SizeOfB(t, vars, Further(brk, 5 + SizeB(e)));
    CodeSplit(c, pc, CodeE(cond, vars), test + (t' + e'));
    CodeSplit(c, pc + SizeE(cond), test, t' + e');
    SizeOfTest(t' + e', SizeB(t) + 5);
    CodeSplit(c, pc + SizeE(cond) + 9, t', e');
    CodeSplit(c, pc + SizeE(cond) + 9 + SizeB(t), [Jmp(SizeB(e))], CodeB(e, vars, brk));
    SizeOfJmp(CodeB(e, vars, brk), SizeB(e));
  }

  lemma {:induction false} WhileRuns(x: Ctx, cond: Expr, b: Block, vars: Vars, brk: Distance, st: Store, fuel: nat,
                                     m: State)
    returns (n: nat, m': State)
    requires Declares(vars, NamesS(While(cond, b))) && Distinct(vars)
    requires CodeAt(x.c, m.pc, CodeS(While(cond, b), vars, brk))
    requires Locals(m.mem, x.base, vars, st) && Safe(x, m, SizeS(While(cond, b)))
    ensures Goes(x, m, n, m')
    ensures Did(x, m, m', n, Exec(While(cond, b), st, brk.Some?, fuel), SizeS(While(cond, b)), brk, fuel, vars)
    decreases fuel, While(cond, b), 1
  {
    hide CodeAt, Goes, Step, Decode, Eval, Names, CodeE, SizeE, Depth, Size, Locals, Safe, CodeB, ExecB, CodeS;
    var s := While(cond, b);
    if fuel == 0 {
      n, m' := 0, m;
      GoesZero(x, m, SizeS(s));
    } else {
      WhileSplit(x.c, m.pc, cond, b, vars, brk);
      DepthBelowSize(cond);
      SafeKept(x, m, m, SizeS(s), Depth(cond));
      var n1, m1 := GuardRuns(x, cond, SizeB(b) + 5, vars, st, m);
      if Eval(cond, st) == 0 {
        n, m' := n1, m1;
      } else {
        SafeKept(x, m, m1, SizeS(s), SizeB(b));
        var n2, m2 := BlockRuns(x, b, vars, Some(5), st, fuel, m1);
        GoesTrans(x, m, n1, m1, n2, m2);
        n, m' := AgainRuns(x, s, vars, brk, ExecB(b, st, true, fuel), fuel, m, n1 + n2, m2, 0 - SizeS(s));
      }
    }
  }

  lemma WhileSplit(c: seq<byte>, pc: int, cond: Expr, b: Block, vars: Vars, brk: Distance)
    requires Declares(vars, NamesS(While(cond, b))) && CodeAt(c, pc, CodeS(While(cond, b), vars, brk))
    ensures CodeAt(c, pc, CodeE(cond, vars)) && CodeAt(c, pc + SizeE(cond), [TestRaxRax, Je(SizeB(b) + 5)])
    ensures CodeAt(c, pc + SizeE(cond) + 9, CodeB(b, vars, Some(5)))
    ensures CodeAt(c, pc + SizeE(cond) + 9 + SizeB(b), [Jmp(0 - SizeS(While(cond, b)))])
  {
    hide CodeAt, Size, CodeE, CodeB, Names, SizeE, Encode;
    var test := [TestRaxRax, Je(SizeB(b) + 5)];
    var b' := CodeB(b, vars, Some(5));
    var back := [Jmp(0 - SizeS(While(cond, b)))];
    SizeOfE(cond, vars);
    SizeOfB(b, vars, Some(5));
    CodeSplit(c, pc, CodeE(cond, vars), test + (b' + back));
    CodeSplit(c, pc + SizeE(cond), test, b' + back);
    SizeOfTest(b' + back, SizeB(b) + 5);
    CodeSplit(c, pc + SizeE(cond) + 9, b', back);
  }

  lemma {:induction false} LoopRuns(x: Ctx, b: Block, vars: Vars, brk: Distance, st: Store, fuel: nat, m: State)
    returns (n: nat, m': State)
    requires Declares(vars, NamesS(Loop(b))) && Distinct(vars) && CodeAt(x.c, m.pc, CodeS(Loop(b), vars, brk))
    requires Locals(m.mem, x.base, vars, st) && Safe(x, m, SizeS(Loop(b)))
    ensures Goes(x, m, n, m')
    ensures Did(x, m, m', n, Exec(Loop(b), st, brk.Some?, fuel), SizeS(Loop(b)), brk, fuel, vars)
    decreases fuel, Loop(b), 1
  {
    hide CodeAt, Goes, Step, Decode, Eval, Names, CodeE, SizeE, Depth, Size, Locals, Safe, CodeB, ExecB, CodeS;
    var s := Loop(b);
    if fuel == 0 {
      n, m' := 0, m;
      GoesZero(x, m, SizeS(s));
    } else {
      LoopSplit(x.c, m.pc, b, vars, brk);
      SafeKept(x, m, m, SizeS(s), SizeB(b));
      var n2, m2 := BlockRuns(x, b, vars, Some(5), st, fuel, m);
      n, m' := AgainRuns(x, s, vars, brk, ExecB(b, st, true, fuel), fuel, m, n2, m2, 0 - SizeS(s));
    }
  }

  lemma LoopSplit(c: seq<byte>, pc: int, b: Block, vars: Vars, brk: Distance)
    requires Declares(vars, NamesS(Loop(b))) && CodeAt(c, pc, CodeS(Loop(b), vars, brk))
    ensures CodeAt(c, pc, CodeB(b, vars, Some(5)))
    ensures CodeAt(c, pc + SizeB(b), [Jmp(0 - SizeS(Loop(b)))])
  {
    hide CodeAt, Size, CodeB;
    SizeOfB(b, vars, Some(5));
    CodeSplit(c, pc, CodeB(b, vars, Some(5)), [Jmp(0 - SizeS(Loop(b)))]);
  }

  /** After the body of a loop: the jump back to the top, or the exit through a break. */
  lemma {:induction false} AgainRuns(x: Ctx, s: Stmt, vars: Vars, brk: Distance, r: Result, fuel: nat, m: State,
                                     n1: nat, m1: State, back: int)
    returns (n: nat, m': State)
    requires Declares(vars, NamesS(s)) && Distinct(vars) && CodeAt(x.c, m.pc, CodeS(s, vars, brk))
    requires Safe(x, m, SizeS(s)) && fuel > 0 && SizeS(s) >= 5 && back == 0 - SizeS(s)
    requires Goes(x, m, n1, m1) && m1.out == m.out + r.out
    requires r.how == OutOfFuel ==> n1 >= fuel
    requires r.how != OutOfFuel ==> Kept(m, m1) && Locals(m1.mem, x.base, vars, r.store)
    requires r.how == Normal ==> m1.pc == m.pc + SizeS(s) - 5
    requires r.how == Broke ==> m1.pc == m.pc + SizeS(s)
    requires CodeAt(x.c, m.pc + SizeS(s) - 5, [Jmp(back)])
    ensures Goes(x, m, n, m')
    ensures Did(x, m, m', n, Again(s, r, brk.Some?, fuel), SizeS(s), brk, fuel, vars)
    decreases fuel, s, 0
  {
    hide CodeAt, Goes, Step, Decode, NamesS, SizeS, Locals, Safe, CodeS, Exec;
    n, m' := n1, m1;
    if r.how == Normal {
      SafeKept(x, m, m1, SizeS(s), SizeS(s));
      var m2 := JmpRuns(x, back, m1);
      GoesTrans(x, m, n1, m1, 1, m2);
      SafeKept(x, m, m2, SizeS(s), SizeS(s));
      var n3, m3 := StmtRuns(x, s, vars, brk, r.store, fuel - 1, m2);
      GoesTrans(x, m, n1 + 1, m2, n3, m3);
      n, m' := n1 + 1 + n3, m3;
    }
  }

  lemma {:induction false} BlockRuns(x: Ctx, b: Block, vars: Vars, brk: Distance, st: Store, fuel: nat, m: State)
    returns (n: nat, m': State)
    requires Declares(vars, NamesB(b)) && Distinct(vars) && CodeAt(x.c, m.pc, CodeB(b, vars, brk))
    requires Locals(m.mem, x.base, vars, st) && Safe(x, m, SizeB(b))
    ensures Goes(x, m, n, m')
    ensures Did(x, m, m', n, ExecB(b, st, brk.Some?, fuel), SizeB(b), brk, fuel, vars)
    decreases fuel, b, 2
  {
    hide CodeAt, Goes, Step, Decode, NamesS, SizeS, Locals, Safe, CodeS, Exec, Size;
    match b
    case Done => n, m' := 0, m; GoesZero(x, m, SizeB(b));
    case Then(s, rest) =>
      var brk' := Further(brk, SizeB(rest));
      CodeSplit(x.c, m.pc, CodeS(s, vars, brk'), CodeB(rest, vars, brk));
      SizeOfS(s, vars, brk');
      SafeKept(x, m, m, SizeB(b), SizeS(s));
      n, m' := StmtRuns(x, s, vars, brk', st, fuel, m);
      var r := Exec(s, st, brk.Some?, fuel);
      if r.how == Normal {
        SafeKept(x, m, m', SizeB(b), SizeB(rest));
        var n2, m2 := BlockRuns(x, rest, vars, brk, r.store, fuel, m');
        GoesTrans(x, m, n, m', n2, m2);
        n, m' := n + n2, m2;
      }
  }
}
