/** The instructions that implement a syntax tree.  All jumps are relative, so the code of a
    statement does not depend on where it is placed; `brk` is the distance in bytes from the
    end of the statement to the end of the innermost loop, None outside loops. */
module Codegen {
  import opened Words
  import opened X86
  import opened Machine
  import opened S = BarrelSyntax

  const MAX_LOCALS := 32
  const FRAME_BYTES := 256

  type Vars = seq<Name>

  /** Index of `x` in the table of locals. */
  function SlotOf(vars: Vars, x: Name): (i: nat)
    requires x in vars
    ensures i < |vars| && vars[i] == x
  {
    if vars[0] == x then 0 else 1 + SlotOf(vars[1..], x)
  }

  function Disp(slot: nat): int { -8 * (slot + 1) }

  function CondOf(op: Op): Cond {
    match op
    case Eq => E case Ne => NE case Lt => B case Le => BE case Gt => A case _ => AE
  }

  function OpCode(op: Op): seq<Instr> {
    match op
    case Add => [AddRaxRcx]
    case Sub => [SubRaxRcx]
    case Mul => [ImulRaxRcx]
    case Div => [TestRcxRcx, Je(10), XorEdxEdx, DivRcx, Jmp(2), XorEaxEax]
    case _ => [CmpRaxRcx, SetAl(CondOf(op)), MovzxRaxAl]
  }

  // ----- Names -----

  function Names(e: Expr): set<Name> {
    match e
    case Num(_) => {}
    case Var(x) => {x}
    case Paren(i) => Names(i)
    case Neg(a) => Names(a)
    case Bin(_, l, r) => Names(l) + Names(r)
  }

  function NamesS(s: Stmt): set<Name> {
    match s
    case Empty => {}
    case Let(x, e) => {x} + Names(e)
    case Print(e, _) => Names(e)
    case If(c, t) => Names(c) + NamesB(t)
    case IfElse(c, t, e) => Names(c) + NamesB(t) + NamesB(e)
    case While(c, b) => Names(c) + NamesB(b)
    case Loop(b) => NamesB(b)
    case Break => {}
  }

  function NamesB(b: Block): set<Name> {
    match b
    case Done => {}
    case Then(s, rest) => NamesS(s) + NamesB(rest)
  }

  predicate Declares(vars: Vars, xs: set<Name>) { forall x :: x in xs ==> x in vars }

  // ----- Sizes in bytes -----

  function SizeOp(op: Op): nat {
    match op
    case Add => 3 case Sub => 3 case Mul => 4 case Div => 21 case _ => 10
  }

  function SizeE(e: Expr): nat {
    match e
    case Num(_) => 10
    case Var(_) => 7
    case Paren(i) => SizeE(i)
    case Neg(a) => SizeE(a) + 3
    case Bin(op, l, r) => SizeE(l) + 1 + SizeE(r) + 4 + SizeOp(op)
  }

  function SizeS(s: Stmt): nat {
    match s
    case Empty => 0
    case Let(_, e) => SizeE(e) + 7
    case Print(e, nl) => SizeE(e) + (if nl then 15 else 12)
    case If(c, t) => SizeE(c) + 9 + SizeB(t)
    case IfElse(c, t, e) => SizeE(c) + 9 + SizeB(t) + 5 + SizeB(e)
    case While(c, b) => SizeE(c) + 9 + SizeB(b) + 5
    case Loop(b) => SizeB(b) + 5
    case Break => 5
  }

  function SizeB(b: Block): nat {
    match b
    case Done => 0
    case Then(s, rest) => SizeS(s) + SizeB(rest)
  }

  // ----- Code -----

  function CodeE(e: Expr, vars: Vars): seq<Instr>
    requires Declares(vars, Names(e))
  {
    match e
    case Num(n) => [MovRaxImm(n)]
    case Var(x) => [LoadRax(Disp(SlotOf(vars, x)))]
    case Paren(i) => CodeE(i, vars)
    case Neg(a) => CodeE(a, vars) + [NegRax]
    case Bin(op, l, r) => CodeE(l, vars) + ([PushRax] + (CodeE(r, vars) + ([MovRcxRax, PopRax] + OpCode(op))))
  }

  function PrintCode(nl: bool): seq<Instr> {
    [MovRdiRax, if nl then MovEsi1 else XorEsiEsi, MovEaxImm(32), Syscall]
  }

  type Distance = Option<nat>

  function Further(d: Distance, n: nat): Distance {
    match d
    case None => None
    case Some(k) => Some(k + n)
  }

  function BreakRel(d: Distance): int {
    match d
    case None => 0
    case Some(k) => k
  }

  function CodeS(s: Stmt, vars: Vars, brk: Distance): seq<Instr>
    requires Declares(vars, NamesS(s))
  {
    match s
    case Empty => []
    case Let(x, e) => CodeE(e, vars) + [StoreRax(Disp(SlotOf(vars, x)))]
    case Print(e, nl) => CodeE(e, vars) + PrintCode(nl)
    case If(c, t) => CodeE(c, vars) + ([TestRaxRax, Je(SizeB(t))] + CodeB(t, vars, brk))
    case IfElse(c, t, e) =>
      CodeE(c, vars) + ([TestRaxRax, Je(SizeB(t) + 5)] + (CodeB(t, vars, Further(brk, 5 + SizeB(e))) +
        ([Jmp(SizeB(e))] + CodeB(e, vars, brk))))
    case While(c, b) =>
      CodeE(c, vars) + ([TestRaxRax, Je(SizeB(b) + 5)] + (CodeB(b, vars, Some(5)) +
        [Jmp(-(SizeE(c) + 9 + SizeB(b) + 5))]))
    case Loop(b) => CodeB(b, vars, Some(5)) + [Jmp(-(SizeB(b) + 5))]
    case Break => [Jmp(BreakRel(brk))]
  }

  function CodeB(b: Block, vars: Vars, brk: Distance): seq<Instr>
    requires Declares(vars, NamesB(b))
  {
    match b
    case Done => []
    case Then(s, rest) => CodeS(s, vars, Further(brk, SizeB(rest))) + CodeB(rest, vars, brk)
  }

  const PROLOGUE: seq<Instr> := [PushRbp, MovRbpRsp, SubRspImm(FRAME_BYTES)]
  const EPILOGUE: seq<Instr> := [XorEdiEdi, MovEaxImm(6), Syscall]

  function CodeP(b: Block, vars: Vars): seq<Instr>
    requires Declares(vars, NamesB(b))
  {
    PROLOGUE + (CodeB(b, vars, None) + EPILOGUE)
  }

  // ----- The sizes are the sizes -----

  lemma SizeOfOp(op: Op)
    ensures Size(OpCode(op)) == SizeOp(op)
  {
    hide Size, Encode, CondOf;
    if op == Div { SizeOfDiv(); } else { Size1(OpCode(op)); }
  }

  lemma SizeOfDiv()
    ensures Size([TestRcxRcx, Je(10), XorEdxEdx, DivRcx, Jmp(2), XorEaxEax]) == 21
  {
    hide Size, Encode;
    var a, b := [TestRcxRcx, Je(10), XorEdxEdx], [DivRcx, Jmp(2), XorEaxEax];
    Size1(a);
    Size1(b);
    SizeConcat(a, b);
    assert a + b == [TestRcxRcx, Je(10), XorEdxEdx, DivRcx, Jmp(2), XorEaxEax];
  }

  /** The size of a short list, instruction by instruction. */
  lemma Size1(s: seq<Instr>)
    ensures |s| == 0 ==> Size(s) == 0
    ensures |s| >= 1 ==> Size(s) == |Encode(s[0])| + Size(s[1..])
    ensures |s| >= 2 ==> Size(s) == |Encode(s[0])| + |Encode(s[1])| + Size(s[2..])
    ensures |s| >= 3 ==> Size(s) == |Encode(s[0])| + |Encode(s[1])| + |Encode(s[2])| + Size(s[3..])
    ensures |s| == 1 ==> Size(s) == |Encode(s[0])|
    ensures |s| == 2 ==> Size(s) == |Encode(s[0])| + |Encode(s[1])|
    ensures |s| == 3 ==> Size(s) == |Encode(s[0])| + |Encode(s[1])| + |Encode(s[2])|
    ensures |s| == 4 ==> Size(s) == |Encode(s[0])| + |Encode(s[1])| + |Encode(s[2])| + |Encode(s[3])|
    ensures |s| == 6 ==>
      Size(s) == |Encode(s[0])| + |Encode(s[1])| + |Encode(s[2])| + |Encode(s[3])| + |Encode(s[4])| + |Encode(s[5])|
  {
    hide Encode;
    if |s| >= 1 { assert Size(s) == |Encode(s[0])| + Size(s[1..]); }
    if |s| >= 2 { assert s[1..][1..] == s[2..]; assert Size(s[1..]) == |Encode(s[1])| + Size(s[2..]); }
    if |s| >= 3 { assert s[2..][1..] == s[3..]; assert Size(s[2..]) == |Encode(s[2])| + Size(s[3..]); }
    if |s| >= 4 { assert s[3..][1..] == s[4..]; assert Size(s[3..]) == |Encode(s[3])| + Size(s[4..]); }
    if |s| >= 5 { assert s[4..][1..] == s[5..]; assert Size(s[4..]) == |Encode(s[4])| + Size(s[5..]); }
    if |s| >= 6 { assert s[5..][1..] == s[6..]; assert Size(s[5..]) == |Encode(s[5])| + Size(s[6..]); }
  }

  lemma {:induction false} SizeOfE(e: Expr, vars: Vars)
    requires Declares(vars, Names(e))
    ensures Size(CodeE(e, vars)) == SizeE(e)
  {
    hide Size;
    match e
    case Num(n) => Size1(CodeE(e, vars));
    case Var(x) => Size1(CodeE(e, vars));
    case Paren(i) => SizeOfE(i, vars);
    case Neg(a) =>
      SizeOfE(a, vars);
      BytesConcat(CodeE(a, vars), [NegRax]);
      Size1([NegRax]);
    case Bin(op, l, r) =>
      SizeOfE(l, vars);
      SizeOfE(r, vars);
      SizeOfBin(CodeE(l, vars), CodeE(r, vars), op);
  }

  lemma SizeOfBin(l: seq<Instr>, r: seq<Instr>, op: Op)
    ensures Size(l + ([PushRax] + (r + ([MovRcxRax, PopRax] + OpCode(op))))) == Size(l) + 1 + Size(r) + 4 + SizeOp(op)
  {
    hide Size, OpCode;
    var a := [MovRcxRax, PopRax] + OpCode(op);
    BytesConcat(l, [PushRax] + (r + a));
    BytesConcat([PushRax], r + a);
    BytesConcat(r, a);
    BytesConcat([MovRcxRax, PopRax], OpCode(op));
    SizeOfOp(op);
    Size1([PushRax]);
    Size1([MovRcxRax, PopRax]);
  }

  lemma SizeConcat(a: seq<Instr>, b: seq<Instr>)
    ensures Size(a + b) == Size(a) + Size(b)
  {
    BytesConcat(a, b);
  }

  lemma SizeOfStore(d: int)
    ensures Size([StoreRax(d)]) == 7
  {
    Size1([StoreRax(d)]);
  }

  lemma SizeOfPrint(nl: bool)
    ensures Size(PrintCode(nl)) == if nl then 15 else 12
  {
    Size1(PrintCode(nl));
  }

  lemma SizeOfTest(s: seq<Instr>, r: int)
    ensures Size([TestRaxRax, Je(r)] + s) == 9 + Size(s)
  {
    hide Size;
    SizeConcat([TestRaxRax, Je(r)], s);
    Size1([TestRaxRax, Je(r)]);
  }

  lemma SizeOfJmp(s: seq<Instr>, r: int)
    ensures Size([Jmp(r)] + s) == 5 + Size(s)
    ensures Size([Jmp(r)]) == 5
  {
    hide Size;
    SizeConcat([Jmp(r)], s);
    Size1([Jmp(r)]);
  }

  lemma {:induction false} SizeOfS(s: Stmt, vars: Vars, brk: Distance)
    requires Declares(vars, NamesS(s))
    ensures Size(CodeS(s, vars, brk)) == SizeS(s)
    decreases s, 1
  {
    hide Size, CodeE, Names, CodeB, Encode;
    match s
    case Empty => Size1([]);
    case Let(x, e) =>
      SizeOfE(e, vars);
      var i := [StoreRax(Disp(SlotOf(vars, x)))];
      SizeConcat(CodeE(e, vars), i);
      SizeOfStore(Disp(SlotOf(vars, x)));
    case Print(e, nl) =>
      SizeOfE(e, vars);
      SizeConcat(CodeE(e, vars), PrintCode(nl));
      SizeOfPrint(nl);
    case If(c, t) =>
      SizeOfE(c, vars);
      SizeOfB(t, vars, brk);
      var t' := CodeB(t, vars, brk);
      SizeConcat(CodeE(c, vars), [TestRaxRax, Je(SizeB(t))] + t');
      SizeOfTest(t', SizeB(t));
    case IfElse(c, t, e) => SizeOfIfElse(c, t, e, vars, brk);
    case While(c, b) => SizeOfWhile(c, b, vars, brk);
    case Loop(b) =>
      SizeOfB(b, vars, Some(5));
      var r := -(SizeB(b) + 5);
      SizeConcat(CodeB(b, vars, Some(5)), [Jmp(r)]);
      SizeOfJmp([], r);
    case Break => SizeOfJmp([], BreakRel(brk));
  }

  lemma {:induction false} SizeOfIfElse(c: Expr, t: Block, e: Block, vars: Vars, brk: Distance)
    requires Declares(vars, NamesS(IfElse(c, t, e)))
    ensures Size(CodeS(IfElse(c, t, e), vars, brk)) == SizeS(IfElse(c, t, e))
    decreases IfElse(c, t, e), 0
  {
    hide Size, CodeE, Names, CodeB, Encode;
    SizeOfE(c, vars);
    var t' := CodeB(t, vars, Further(brk, 5 + SizeB(e)));
    SizeOfB(t, vars, Further(brk, 5 + SizeB(e)));
    var e' := CodeB(e, vars, brk);
    SizeOfB(e, vars, brk);
    var j := [Jmp(SizeB(e))] + e';
    SizeOfJmp(e', SizeB(e));
    SizeConcat(t', j);
    SizeOfTest(t' + j, SizeB(t) + 5);
    SizeConcat(CodeE(c, vars), [TestRaxRax, Je(SizeB(t) + 5)] + (t' + j));
  }

  lemma {:induction false} SizeOfWhile(c: Expr, b: Block, vars: Vars, brk: Distance)
    requires Declares(vars, NamesS(While(c, b)))
    ensures Size(CodeS(While(c, b), vars, brk)) == SizeS(While(c, b))
    decreases While(c, b), 0
  {
    hide Size, CodeE, Names, CodeB, Encode;
    SizeOfE(c, vars);
    var b' := CodeB(b, vars, Some(5));
    SizeOfB(b, vars, Some(5));
    var r := -(SizeE(c) + 9 + SizeB(b) + 5);
    SizeOfJmp([], r);
    SizeConcat(b', [Jmp(r)]);
    SizeOfTest(b' + [Jmp(r)], SizeB(b) + 5);
    SizeConcat(CodeE(c, vars), [TestRaxRax, Je(SizeB(b) + 5)] + (b' + [Jmp(r)]));
  }

  lemma {:induction false} SizeOfB(b: Block, vars: Vars, brk: Distance)
    requires Declares(vars, NamesB(b))
    ensures Size(CodeB(b, vars, brk)) == SizeB(b)
    decreases b, 1
  {
    hide Size, CodeS;
    match b
    case Done => Size1([]);
    case Then(s, rest) =>
      SizeOfS(s, vars, Further(brk, SizeB(rest)));
      SizeOfB(rest, vars, brk);
      SizeConcat(CodeS(s, vars, Further(brk, SizeB(rest))), CodeB(rest, vars, brk));
  }
}
