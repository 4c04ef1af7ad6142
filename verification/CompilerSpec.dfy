/** What one pass of the compiler does to its output, as functions of a snapshot of its state.
    A failed compilation is None, and stays None. */
module CompilerSpec {
  import opened Words
  import opened X86
  import opened Machine
  import opened S = BarrelSyntax
  import opened Codegen
  import opened ProgramCorrectness

  const MAX_BREAKS := 32

  /** Tokens still to be read, variables seen, code emitted, and `break` sites not yet patched. */
  datatype Snap = Snap(rest: seq<Token>, vars: Vars, code: seq<byte>, breaks: seq<nat>)

  type Now = Option<Snap>

  // ----- Variables in order of first occurrence -----

  function Declare(vars: Vars, x: Name): Vars {
    if x in vars then vars else vars + [x]
  }

  function DeclareE(vars: Vars, e: Expr): Vars
    decreases e
  {
    match e
    case Num(_) => vars
    case Var(x) => Declare(vars, x)
    case Paren(i) => DeclareE(vars, i)
    case Neg(a) => DeclareE(vars, a)
    case Bin(_, l, r) => DeclareE(DeclareE(vars, l), r)
  }

  function DeclareS(vars: Vars, s: Stmt): Vars
    decreases s
  {
    match s
    case Empty => vars
    case Let(x, e) => DeclareE(Declare(vars, x), e)
    case Print(e, _) => DeclareE(vars, e)
    case If(c, t) => DeclareB(DeclareE(vars, c), t)
    case IfElse(c, t, e) => DeclareB(DeclareB(DeclareE(vars, c), t), e)
    case While(c, b) => DeclareB(DeclareE(vars, c), b)
    case Loop(b) => DeclareB(vars, b)
    case Break => vars
  }

  function DeclareB(vars: Vars, b: Block): Vars
    decreases b
  {
    match b
    case Done => vars
    case Then(s, rest) => DeclareB(DeclareS(vars, s), rest)
  }

  /** Declaring extends the table, covers the names, and keeps it free of repetitions. */
  ghost predicate Grows(vars: Vars, vars': Vars, xs: set<Name>) {
    && vars <= vars' && Declares(vars', xs)
    && (Distinct(vars) ==> Distinct(vars'))
  }

  lemma GrowsTrans(a: Vars, b: Vars, c: Vars, xs: set<Name>, ys: set<Name>)
    requires Grows(a, b, xs) && Grows(b, c, ys)
    ensures Grows(a, c, xs + ys)
  {
    forall x | x in xs ensures x in c {
      var i :| 0 <= i < |b| && b[i] == x;
      assert c[i] == x;
    }
  }

  lemma DeclareGrows(vars: Vars, x: Name)
    ensures Grows(vars, Declare(vars, x), {x})
  {
    assert x !in vars ==> (vars + [x])[|vars|] == x;
  }

  lemma {:induction false} DeclareEGrows(vars: Vars, e: Expr)
    ensures Grows(vars, DeclareE(vars, e), Names(e))
    decreases e
  {
    hide Grows;
    match e
    case Num(_) => GrowsNone(vars);
    case Var(x) => DeclareGrows(vars, x);
    case Paren(i) => DeclareEGrows(vars, i);
    case Neg(a) => DeclareEGrows(vars, a);
    case Bin(_, l, r) =>
      DeclareEGrows(vars, l);
      DeclareEGrows(DeclareE(vars, l), r);
      GrowsTrans(vars, DeclareE(vars, l), DeclareE(vars, e), Names(l), Names(r));
  }

  lemma GrowsNone(vars: Vars)
    ensures Grows(vars, vars, {})
  {
  }

  lemma {:induction false} DeclareSGrows(vars: Vars, s: Stmt)
    ensures Grows(vars, DeclareS(vars, s), NamesS(s))
    decreases s, 0
  {
    hide Grows, Names, DeclareE;
    match s
    case Empty => GrowsNone(vars);
    case Let(x, e) =>
      DeclareGrows(vars, x);
      DeclareEGrows(Declare(vars, x), e);
      GrowsTrans(vars, Declare(vars, x), DeclareS(vars, s), {x}, Names(e));
    case Print(e, _) => DeclareEGrows(vars, e);
    case If(c, t) => DeclareGuarded(vars, c, t);
    case IfElse(c, t, e) =>
      DeclareGuarded(vars, c, t);
      var v := DeclareB(DeclareE(vars, c), t);
      DeclareBGrows(v, e);
      GrowsTrans(vars, v, DeclareB(v, e), Names(c) + NamesB(t), NamesB(e));
    case While(c, b) => DeclareGuarded(vars, c, b);
    case Loop(b) => DeclareBGrows(vars, b);
    case Break => GrowsNone(vars);
  }

  lemma {:induction false} DeclareGuarded(vars: Vars, c: Expr, b: Block)
    ensures Grows(vars, DeclareB(DeclareE(vars, c), b), Names(c) + NamesB(b))
    decreases b, 1
  {
    hide Grows, Names, DeclareE;
    DeclareEGrows(vars, c);
    DeclareBGrows(DeclareE(vars, c), b);
    GrowsTrans(vars, DeclareE(vars, c), DeclareB(DeclareE(vars, c), b), Names(c), NamesB(b));
  }

  lemma {:induction false} DeclareBGrows(vars: Vars, b: Block)
    ensures Grows(vars, DeclareB(vars, b), NamesB(b))
    decreases b, 0
  {
    hide Grows, DeclareS;
    match b
    case Done => GrowsNone(vars);
    case Then(s, rest) =>
      DeclareSGrows(vars, s);
      DeclareBGrows(DeclareS(vars, s), rest);
      GrowsTrans(vars, DeclareS(vars, s), DeclareB(vars, b), NamesS(s), NamesB(rest));
  }

  // ----- Code does not change when the table grows -----

  lemma {:induction false} SlotStable(vars: Vars, vars': Vars, x: Name)
    requires x in vars && vars <= vars'
    ensures x in vars' && SlotOf(vars', x) == SlotOf(vars, x)
    decreases |vars|
  {
    assert vars'[0] == vars[0];
    if vars[0] != x {
      SlotStable(vars[1..], vars'[1..], x);
    }
  }

  lemma {:induction false} CodeEStable(e: Expr, vars: Vars, vars': Vars)
    requires Declares(vars, Names(e)) && vars <= vars'
    ensures Declares(vars', Names(e)) && CodeE(e, vars') == CodeE(e, vars)
    decreases e
  {
    match e
    case Num(_) =>
    case Var(x) => SlotStable(vars, vars', x);
    case Paren(i) => CodeEStable(i, vars, vars');
    case Neg(a) => CodeEStable(a, vars, vars');
    case Bin(_, l, r) => CodeEStable(l, vars, vars'); CodeEStable(r, vars, vars');
  }

  lemma {:induction false} CodeSStable(s: Stmt, vars: Vars, vars': Vars, brk: Distance)
    requires Declares(vars, NamesS(s)) && vars <= vars'
    ensures Declares(vars', NamesS(s)) && CodeS(s, vars', brk) == CodeS(s, vars, brk)
    decreases s
  {
    hide CodeE, Names;
    match s
    case Empty =>
    case Let(x, e) => SlotStable(vars, vars', x); CodeEStable(e, vars, vars');
    case Print(e, _) => CodeEStable(e, vars, vars');
    case If(c, t) => CodeEStable(c, vars, vars'); CodeBStable(t, vars, vars', brk);
    case IfElse(c, t, e) =>
      CodeEStable(c, vars, vars');
      CodeBStable(t, vars, vars', Further(brk, 5 + SizeB(e)));
      CodeBStable(e, vars, vars', brk);
    case While(c, b) => CodeEStable(c, vars, vars'); CodeBStable(b, vars, vars', Some(5));
    case Loop(b) => CodeBStable(b, vars, vars', Some(5));
    case Break =>
  }

  lemma {:induction false} CodeBStable(b: Block, vars: Vars, vars': Vars, brk: Distance)
    requires Declares(vars, NamesB(b)) && vars <= vars'
    ensures Declares(vars', NamesB(b)) && CodeB(b, vars', brk) == CodeB(b, vars, brk)
    decreases b
  {
    match b
    case Done =>
    case Then(s, rest) => CodeSStable(s, vars, vars', Further(brk, SizeB(rest))); CodeBStable(rest, vars, vars', brk);
  }

  // ----- Elementary actions -----

  /** The state unless a limit is exceeded or the next token is a rejected character. */
  function Seal(rest: seq<Token>, vars: Vars, code: seq<byte>, breaks: seq<nat>): Now {
    if Head(rest) == Some(TBad) || |vars| > MAX_LOCALS || |code| > MAX_CODE || |breaks| > MAX_BREAKS then None
    else Some(Snap(rest, vars, code, breaks))
  }

  /** A state within the limits. */
  predicate Within(s: Snap) {
    |s.vars| <= MAX_LOCALS && |s.code| <= MAX_CODE && |s.breaks| <= MAX_BREAKS && Head(s.rest) != Some(TBad)
  }

  function AfterNext(n: Now): Now {
    match n
    case None => None
    case Some(s) => if s.rest == [] then n else Seal(s.rest[1..], s.vars, s.code, s.breaks)
  }

  function AfterEat(n: Now, t: Token): Now {
    match n
    case None => None
    case Some(s) => if Head(s.rest) == Some(t) then AfterNext(n) else None
  }

  function AfterEmit(n: Now, bs: seq<byte>): Now {
    match n
    case None => None
    case Some(s) => Seal(s.rest, s.vars, s.code + bs, s.breaks)
  }

  function AfterDeclare(n: Now, x: Name): Now {
    match n
    case None => None
    case Some(s) => Seal(s.rest, Declare(s.vars, x), s.code, s.breaks)
  }

  // ----- Expressions -----

  /** The bytes of `e` when the variables `vars` have been seen before it. */
  function EmitE(e: Expr, vars: Vars): seq<byte> {
    DeclareEGrows(vars, e);
    Bytes(CodeE(e, DeclareE(vars, e)))
  }

  function FinishE(s: Snap, e: Expr, rest: seq<Token>): Now {
    Seal(rest, DeclareE(s.vars, e), s.code + EmitE(e, s.vars), s.breaks)
  }

  /** Compiling an expression of level `p`. */
  function AfterE(n: Now, p: nat): Now
    requires p <= 3
  {
    match n
    case None => None
    case Some(s) =>
      match Parse(s.rest, p)
      case None => None
      case Some((e, rest)) => FinishE(s, e, rest)
  }

  function FinishTail(s: Snap, e: Expr, ts: seq<Token>, p: nat): Now
    requires p < 3
  {
    match ParseTail(e, ts, p)
    case None => None
    case Some((e', rest)) => FinishE(s, e', rest)
  }

  lemma EmitESize(e: Expr, vars: Vars)
    ensures |EmitE(e, vars)| == SizeE(e)
  {
    DeclareEGrows(vars, e);
    SizeOfE(e, DeclareE(vars, e));
  }

  /** The bytes of a binary expression, piece by piece. */
  lemma EmitBin(op: Op, l: Expr, r: Expr, vars: Vars)
    ensures EmitE(Bin(op, l, r), vars) ==
            EmitE(l, vars) + Bytes([PushRax]) + EmitE(r, DeclareE(vars, l)) + Bytes([MovRcxRax, PopRax] + OpCode(op))
  {
    hide Bytes, OpCode, Declares;
    var vl := DeclareE(vars, l);
    var vr := DeclareE(vl, r);
    DeclareEGrows(vars, l);
    DeclareEGrows(vl, r);
    DeclareEGrows(vars, Bin(op, l, r));
    CodeEStable(l, vl, vr);
    var l', r', o := CodeE(l, vl), CodeE(r, vr), [MovRcxRax, PopRax] + OpCode(op);
    BytesConcat(l', [PushRax] + (r' + o));
    BytesConcat([PushRax], r' + o);
    BytesConcat(r', o);
    AssocFour(Bytes(l'), Bytes([PushRax]), Bytes(r'), Bytes(o));
  }

  lemma AssocFour(a: seq<byte>, b: seq<byte>, c: seq<byte>, d: seq<byte>)
    ensures a + (b + (c + d)) == a + b + c + d
  {
  }

  /** Later operands only add variables and code. */
  lemma {:induction false} TailGrows(e: Expr, ts: seq<Token>, p: nat, vars: Vars)
    requires p < 3 && ParseTail(e, ts, p).Some?
    ensures var e' := ParseTail(e, ts, p).value.0;
            |DeclareE(vars, e)| <= |DeclareE(vars, e')| && SizeE(e) <= SizeE(e')
    decreases |ts|
  {
    match OpAt(ts, p)
    case None =>
    case Some(op) =>
      var (r, rest) := Parse(ts[1..], p + 1).value;
      TailGrows(Bin(op, e, r), rest, p, vars);
      DeclareEGrows(DeclareE(vars, e), r);
  }

  lemma FinishOverflow(s: Snap, e: Expr, ts: seq<Token>, p: nat)
    requires p < 3 && (|DeclareE(s.vars, e)| > MAX_LOCALS || |s.code| + SizeE(e) > MAX_CODE)
    ensures FinishTail(s, e, ts, p).None?
  {
    hide ParseTail, EmitE, DeclareE, SizeE;
    if ParseTail(e, ts, p).Some? {
      TailGrows(e, ts, p, s.vars);
      EmitESize(ParseTail(e, ts, p).value.0, s.vars);
    }
  }

  /** One turn of an operator loop: the operand read so far is `e`, and compiling the operator and
      its right operand from state `s` leads to the state for the longer expression. */
  lemma TailStep(s0: Snap, e: Expr, s: Snap, p: nat, op: Op) returns (r: Expr)
    requires p < 3 && FinishE(s0, e, s.rest) == Some(s) && OpAt(s.rest, p) == Some(op)
    ensures var right := AfterE(AfterEmit(AfterNext(Some(s)), Bytes([PushRax])), p + 1);
            var done := AfterEmit(right, Bytes([MovRcxRax, PopRax] + OpCode(op)));
            && (done.None? ==> FinishTail(s0, e, s.rest, p).None?)
            && (done.Some? ==>
                  && FinishE(s0, Bin(op, e, r), done.value.rest) == done
                  && FinishTail(s0, Bin(op, e, r), done.value.rest, p) == FinishTail(s0, e, s.rest, p))
  {
    hide Bytes, OpCode, EmitE, Parse;
    r := Num(0);
    match Parse(s.rest[1..], p + 1)
    case None =>
    case Some((r', rest)) =>
      r := r';
      var e' := Bin(op, e, r);
      EmitBin(op, e, r, s0.vars);
      EmitESize(e, s0.vars);
      EmitESize(r, s.vars);
      EmitESize(e', s0.vars);
      TailSizes(op);
      assert ParseTail(e, s.rest, p) == ParseTail(e', rest, p);
      if |DeclareE(s0.vars, e')| > MAX_LOCALS || |s0.code| + SizeE(e') > MAX_CODE {
        FinishOverflow(s0, e', rest, p);
      } else {
        TailFits(s0, e, s, p, op, r, rest);
        if Head(rest) == Some(TBad) {
          assert ParseTail(e', rest, p) == Some((e', rest));
        }
      }
  }

  lemma TailSizes(op: Op)
    ensures |Bytes([PushRax])| == 1 && |Bytes([MovRcxRax, PopRax] + OpCode(op))| == 4 + SizeOp(op)
  {
    hide OpCode, Size;
    Size1([PushRax]);
    SizeOfOp(op);
    SizeConcat([MovRcxRax, PopRax], OpCode(op));
    Size1([MovRcxRax, PopRax]);
    assert Size([PushRax]) == |Bytes([PushRax])| by { SizeIs([PushRax]); }
    SizeIs([MovRcxRax, PopRax] + OpCode(op));
  }

  lemma SizeIs(s: seq<Instr>)
    ensures Size(s) == |Bytes(s)|
  {
  }

  lemma TailFits(s0: Snap, e: Expr, s: Snap, p: nat, op: Op, r: Expr, rest: seq<Token>)
    requires p < 3 && FinishE(s0, e, s.rest) == Some(s) && OpAt(s.rest, p) == Some(op)
    requires Parse(s.rest[1..], p + 1) == Some((r, rest))
    requires |DeclareE(s0.vars, Bin(op, e, r))| <= MAX_LOCALS && |s0.code| + SizeE(Bin(op, e, r)) <= MAX_CODE
    ensures var right := AfterE(AfterEmit(AfterNext(Some(s)), Bytes([PushRax])), p + 1);
            var done := AfterEmit(right, Bytes([MovRcxRax, PopRax] + OpCode(op)));
            done == FinishE(s0, Bin(op, e, r), rest)
  {
    hide Bytes, OpCode, EmitE, ParseTail;
    EmitBin(op, e, r, s0.vars);
    EmitESize(e, s0.vars);
    EmitESize(r, s.vars);
    EmitESize(Bin(op, e, r), s0.vars);
    TailSizes(op);
    if Head(s.rest[1..]) == Some(TBad) {
      BadHead(s.rest[1..], p + 1);
    } else {
      var a, b := s.code + Bytes([PushRax]), Bytes([MovRcxRax, PopRax] + OpCode(op));
      assert a + EmitE(r, s.vars) + b == s0.code + EmitE(Bin(op, e, r), s0.vars);
    }
  }

  /** Nothing parses from a rejected character. */
  lemma {:induction false} BadHead(ts: seq<Token>, p: nat)
    requires p <= 3 && Head(ts) == Some(TBad)
    ensures Parse(ts, p).None?
    decreases 3 - p
  {
    if p < 3 { BadHead(ts, p + 1); }
  }
}
