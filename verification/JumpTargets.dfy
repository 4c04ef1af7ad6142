/** Every jump in generated code lands on the start of an instruction, before the exit sequence,
    so all operands fit their encodings and decoding gives back the instruction list. */
module JumpTargets {
  import opened Words
  import opened X86
  import opened Machine
  import opened S = BarrelSyntax
  import opened Codegen

  predicate IsJump(i: Instr) { i.Je? || i.Jmp? }

  /** Instruction `i` of `s`, placed at `pc`, jumps to this address. */
  function Target(s: seq<Instr>, i: nat, pc: int): int
    requires i < |s| && IsJump(s[i])
  {
    pc + Size(s[..i + 1]) + s[i].rel
  }

  /** All jumps of `s`, placed at `pc`, go to addresses in `t`. */
  ghost predicate Lands(s: seq<Instr>, pc: int, t: iset<int>) {
    forall i :: 0 <= i < |s| && IsJump(s[i]) ==> Target(s, i, pc) in t
  }

  /** Operands other than jump distances fit their encodings. */
  ghost predicate Modest(s: seq<Instr>) {
    forall i :: 0 <= i < |s| && !IsJump(s[i]) ==> Encodable(s[i])
  }

  ghost predicate Covers(t: iset<int>, s: seq<Instr>, pc: int) {
    forall j :: 0 <= j <= |s| ==> pc + Size(s[..j]) in t
  }

  lemma LandsConcat(a: seq<Instr>, b: seq<Instr>, pc: int, t: iset<int>)
    requires Lands(a, pc, t) && Lands(b, pc + Size(a), t) && Modest(a) && Modest(b)
    ensures Lands(a + b, pc, t) && Modest(a + b)
  {
    hide Size;
    forall i | 0 <= i < |a + b| && IsJump((a + b)[i])
      ensures Target(a + b, i, pc) in t
    {
      if i < |a| {
        assert (a + b)[..i + 1] == a[..i + 1];
        assert Target(a, i, pc) in t;
      } else {
        assert (a + b)[..i + 1] == a + b[..i - |a| + 1];
        SizeConcat(a, b[..i - |a| + 1]);
        assert Target(b, i - |a|, pc + Size(a)) in t;
      }
    }
  }

  lemma CoversSplit(t: iset<int>, a: seq<Instr>, b: seq<Instr>, pc: int)
    requires Covers(t, a + b, pc)
    ensures Covers(t, a, pc) && Covers(t, b, pc + Size(a)) && pc + Size(a) in t
  {
    hide Size;
    forall j | 0 <= j <= |a| ensures pc + Size(a[..j]) in t {
      assert (a + b)[..j] == a[..j];
    }
    assert a[..|a|] == a;
    forall j | 0 <= j <= |b| ensures pc + Size(a) + Size(b[..j]) in t {
      assert (a + b)[..|a| + j] == a + b[..j];
      SizeConcat(a, b[..j]);
    }
  }

  lemma CoversEnd(t: iset<int>, s: seq<Instr>, pc: int)
    requires Covers(t, s, pc)
    ensures pc in t && pc + Size(s) in t
  {
    assert s[..|s|] == s && s[..0] == [];
    Size1([]);
  }

  lemma NoJumpsLand(s: seq<Instr>, pc: int, t: iset<int>)
    requires forall i :: 0 <= i < |s| ==> !IsJump(s[i]) && Encodable(s[i])
    ensures Lands(s, pc, t) && Modest(s)
  {
  }

  lemma TestLands(rel: nat, pc: int, t: iset<int>)
    requires pc + 9 + rel in t
    ensures Lands([TestRaxRax, Je(rel)], pc, t) && Modest([TestRaxRax, Je(rel)])
  {
    hide Size;
    var s := [TestRaxRax, Je(rel)];
    assert s[..2] == s + [];
    SizeOfTest([], rel);
    Size1([]);
  }

  lemma JmpLands(rel: int, pc: int, t: iset<int>)
    requires pc + 5 + rel in t
    ensures Lands([Jmp(rel)], pc, t) && Modest([Jmp(rel)])
  {
    hide Size;
    assert [Jmp(rel)][..1] == [Jmp(rel)];
    SizeOfJmp([], rel);
  }

  lemma OpLands(op: Op, pc: int, t: iset<int>)
    requires Covers(t, OpCode(op), pc)
    ensures Lands(OpCode(op), pc, t) && Modest(OpCode(op))
  {
    hide Size, Encode, CondOf;
    if op == Div {
      DivLands(pc, t);
    }
  }

  lemma DivLands(pc: int, t: iset<int>)
    requires Covers(t, OpCode(Div), pc)
    ensures Lands(OpCode(Div), pc, t) && Modest(OpCode(Div))
  {
    hide Size, Encode;
    var s := OpCode(Div);
    DivSizes(s);
    assert pc + Size(s[..5]) in t && pc + Size(s[..6]) in t;
    assert Target(s, 1, pc) == pc + 19 && Target(s, 4, pc) == pc + 21;
  }

  lemma DivSizes(s: seq<Instr>)
    requires s == OpCode(Div)
    ensures |s| == 6 && Size(s[..2]) == 9 && Size(s[..5]) == 19 && Size(s[..6]) == 21
  {
    hide Size, Encode;
    var s1, s2, s3, s4, s5 := [TestRcxRcx], s[..2], s[..3], s[..4], s[..5];
    assert s2 == s1 + [Je(10)];
    assert s3 == s2 + [XorEdxEdx];
    assert s4 == s3 + [DivRcx];
    assert s5 == s4 + [Jmp(2)];
    assert s[..6] == s5 + [XorEaxEax];
    SizeConcat(s1, [Je(10)]);
    SizeConcat(s2, [XorEdxEdx]);
    SizeConcat(s3, [DivRcx]);
    SizeConcat(s4, [Jmp(2)]);
    SizeConcat(s5, [XorEaxEax]);
    SizeOne(TestRcxRcx);
    SizeOne(Je(10));
    SizeOne(XorEdxEdx);
    SizeOne(DivRcx);
    SizeOne(Jmp(2));
    SizeOne(XorEaxEax);
  }

  lemma SizeOne(i: Instr)
    ensures Size([i]) == Length(i)
  {
    hide Encode;
    Size1([i]);
  }

  lemma {:induction false} ExprLands(e: Expr, vars: Vars, pc: int, t: iset<int>)
    requires Declares(vars, Names(e)) && |vars| <= MAX_LOCALS && Covers(t, CodeE(e, vars), pc)
    ensures Lands(CodeE(e, vars), pc, t) && Modest(CodeE(e, vars))
    decreases e
  {
    hide Size, OpCode, Covers, Lands, Modest;
    match e
    case Num(n) => NoJumpsLand(CodeE(e, vars), pc, t);
    case Var(x) => NoJumpsLand(CodeE(e, vars), pc, t);
    case Paren(i) => ExprLands(i, vars, pc, t);
    case Neg(a) =>
      var a' := CodeE(a, vars);
      CoversSplit(t, a', [NegRax], pc);
      ExprLands(a, vars, pc, t);
      NoJumpsLand([NegRax], pc + Size(a'), t);
      LandsConcat(a', [NegRax], pc, t);
    case Bin(op, l, r) =>
      var l', r', o := CodeE(l, vars), CodeE(r, vars), OpCode(op);
      var p1 := pc + Size(l');
      var p2 := p1 + Size([PushRax]);
      var p3 := p2 + Size(r');
      var p4 := p3 + Size([MovRcxRax, PopRax]);
      CoversSplit(t, l', [PushRax] + (r' + ([MovRcxRax, PopRax] + o)), pc);
      CoversSplit(t, [PushRax], r' + ([MovRcxRax, PopRax] + o), p1);
      CoversSplit(t, r', [MovRcxRax, PopRax] + o, p2);
      CoversSplit(t, [MovRcxRax, PopRax], o, p3);
      ExprLands(l, vars, pc, t);
      NoJumpsLand([PushRax], p1, t);
      ExprLands(r, vars, p2, t);
      NoJumpsLand([MovRcxRax, PopRax], p3, t);
      OpLands(op, p4, t);
      LandsConcat([MovRcxRax, PopRax], o, p3, t);
      LandsConcat(r', [MovRcxRax, PopRax] + o, p2, t);
      LandsConcat([PushRax], r' + ([MovRcxRax, PopRax] + o), p1, t);
      LandsConcat(l', [PushRax] + (r' + ([MovRcxRax, PopRax] + o)), pc, t);
  }

  /** The jumps of a statement go to instruction starts of the statement or to its break target. */
  lemma {:induction false} StmtLands(s: Stmt, vars: Vars, brk: Distance, pc: int, t: iset<int>)
    requires Declares(vars, NamesS(s)) && |vars| <= MAX_LOCALS && Covers(t, CodeS(s, vars, brk), pc)
    requires brk.Some? ==> pc + SizeS(s) + brk.value in t
    ensures Lands(CodeS(s, vars, brk), pc, t) && Modest(CodeS(s, vars, brk))
    decreases s, 1
  {
    hide Size, Covers, Lands, Modest, CodeE, CodeB, Names, Encode;
    match s
    case Empty => NoJumpsLand([], pc, t);
    case Let(x, e) =>
      var e', i := CodeE(e, vars), [StoreRax(Disp(SlotOf(vars, x)))];
      CoversSplit(t, e', i, pc);
      ExprLands(e, vars, pc, t);
      NoJumpsLand(i, pc + Size(e'), t);
      LandsConcat(e', i, pc, t);
    case Print(e, nl) =>
      var e' := CodeE(e, vars);
      CoversSplit(t, e', PrintCode(nl), pc);
      ExprLands(e, vars, pc, t);
      NoJumpsLand(PrintCode(nl), pc + Size(e'), t);
      LandsConcat(e', PrintCode(nl), pc, t);
    case If(c, th) =>
      var b := CodeB(th, vars, brk);
      CoversEnd(t, CodeS(s, vars, brk), pc);
      SizeOfS(s, vars, brk);
      GuardSplit(c, SizeB(th), b, vars, pc, t);
      BlockLands(th, vars, brk, pc + SizeE(c) + 9, t);
      GuardLands(c, SizeB(th), b, vars, pc, t);
    case IfElse(c, th, el) => IfElseLands(c, th, el, vars, brk, pc, t);
    case While(c, b) => WhileLands(c, b, vars, brk, pc, t);
    case Loop(b) =>
      var b' := CodeB(b, vars, Some(5));
      var j := [Jmp(-(SizeB(b) + 5))];
      SizeOfB(b, vars, Some(5));
      SizeOfS(s, vars, brk);
      CoversEnd(t, CodeS(s, vars, brk), pc);
      CoversSplit(t, b', j, pc);
      BlockLands(b, vars, Some(5), pc, t);
      JmpLands(-(SizeB(b) + 5), pc + SizeB(b), t);
      LandsConcat(b', j, pc, t);
    case Break =>
      CoversEnd(t, CodeS(s, vars, brk), pc);
      SizeOfS(s, vars, brk);
      JmpLands(BreakRel(brk), pc, t);
  }

  lemma GuardSplit(c: Expr, rel: nat, b: seq<Instr>, vars: Vars, pc: int, t: iset<int>)
    requires Declares(vars, Names(c)) && Covers(t, CodeE(c, vars) + ([TestRaxRax, Je(rel)] + b), pc)
    ensures Covers(t, CodeE(c, vars), pc) && Covers(t, b, pc + SizeE(c) + 9)
  {
    hide Size, Covers, CodeE, SizeE;
    SizeOfE(c, vars);
    CoversSplit(t, CodeE(c, vars), [TestRaxRax, Je(rel)] + b, pc);
    CoversSplit(t, [TestRaxRax, Je(rel)], b, pc + SizeE(c));
    SizeOfTest([], rel);
    assert [TestRaxRax, Je(rel)] + [] == [TestRaxRax, Je(rel)];
    Size1([]);
  }

  lemma GuardLands(c: Expr, rel: nat, b: seq<Instr>, vars: Vars, pc: int, t: iset<int>)
    requires Declares(vars, Names(c)) && |vars| <= MAX_LOCALS && Covers(t, CodeE(c, vars), pc)
    requires pc + SizeE(c) + 9 + rel in t && Lands(b, pc + SizeE(c) + 9, t) && Modest(b)
    ensures var s := CodeE(c, vars) + ([TestRaxRax, Je(rel)] + b); Lands(s, pc, t) && Modest(s)
  {
    hide Size, Covers, CodeE, SizeE, Lands, Modest;
    var test := [TestRaxRax, Je(rel)];
    SizeOfE(c, vars);
    SizeOfTest([], rel);
    assert test + [] == test;
    Size1([]);
    ExprLands(c, vars, pc, t);
    TestLands(rel, pc + SizeE(c), t);
    LandsConcat(test, b, pc + SizeE(c), t);
    LandsConcat(CodeE(c, vars), test + b, pc, t);
  }

  lemma {:induction false} IfElseLands(c: Expr, th: Block, el: Block, vars: Vars, brk: Distance, pc: int, t: iset<int>)
    requires var s := IfElse(c, th, el);
             Declares(vars, NamesS(s)) && |vars| <= MAX_LOCALS && Covers(t, CodeS(s, vars, brk), pc)
    requires brk.Some? ==> pc + SizeS(IfElse(c, th, el)) + brk.value in t
    ensures var s := IfElse(c, th, el); Lands(CodeS(s, vars, brk), pc, t) && Modest(CodeS(s, vars, brk))
    decreases IfElse(c, th, el), 0
  {
    hide Size, Covers, Lands, Modest, CodeE, CodeB, Names, Encode;
    var s := IfElse(c, th, el);
    var t' := CodeB(th, vars, Further(brk, 5 + SizeB(el)));
    var e' := CodeB(el, vars, brk);
    var j := [Jmp(SizeB(el))];
    var p1 := pc + SizeE(c) + 9;
    SizeOfS(s, vars, brk);
    CoversEnd(t, CodeS(s, vars, brk), pc);
    GuardSplit(c, SizeB(th) + 5, t' + (j + e'), vars, pc, t);
    SizeOfB(th, vars, Further(brk, 5 + SizeB(el)));
    CoversSplit(t, t', j + e', p1);
    SizeOfJmp([], SizeB(el));
    CoversSplit(t, j, e', p1 + SizeB(th));
    BlockLands(th, vars, Further(brk, 5 + SizeB(el)), p1, t);
    BlockLands(el, vars, brk, p1 + SizeB(th) + 5, t);
    JmpLands(SizeB(el), p1 + SizeB(th), t);
    LandsConcat(j, e', p1 + SizeB(th), t);
    LandsConcat(t', j + e', p1, t);
    GuardLands(c, SizeB(th) + 5, t' + (j + e'), vars, pc, t);
  }

  lemma {:induction false} WhileLands(c: Expr, b: Block, vars: Vars, brk: Distance, pc: int, t: iset<int>)
    requires var s := While(c, b);
             Declares(vars, NamesS(s)) && |vars| <= MAX_LOCALS && Covers(t, CodeS(s, vars, brk), pc)
    ensures var s := While(c, b); Lands(CodeS(s, vars, brk), pc, t) && Modest(CodeS(s, vars, brk))
    decreases While(c, b), 0
  {
    hide Size, Covers, Lands, Modest, CodeE, CodeB, Names, Encode;
    var s := While(c, b);
    var b' := CodeB(b, vars, Some(5));
    var r := -(SizeE(c) + 9 + SizeB(b) + 5);
    var p1 := pc + SizeE(c) + 9;
    SizeOfS(s, vars, brk);
    CoversEnd(t, CodeS(s, vars, brk), pc);
    GuardSplit(c, SizeB(b) + 5, b' + [Jmp(r)], vars, pc, t);
    SizeOfB(b, vars, Some(5));
    CoversSplit(t, b', [Jmp(r)], p1);
    BlockLands(b, vars, Some(5), p1, t);
    JmpLands(r, p1 + SizeB(b), t);
    LandsConcat(b', [Jmp(r)], p1, t);
    GuardLands(c, SizeB(b) + 5, b' + [Jmp(r)], vars, pc, t);
  }

  lemma {:induction false} BlockLands(b: Block, vars: Vars, brk: Distance, pc: int, t: iset<int>)
    requires Declares(vars, NamesB(b)) && |vars| <= MAX_LOCALS && Covers(t, CodeB(b, vars, brk), pc)
    requires brk.Some? ==> pc + SizeB(b) + brk.value in t
    ensures Lands(CodeB(b, vars, brk), pc, t) && Modest(CodeB(b, vars, brk))
    decreases b, 1
  {
    hide Size, Covers, Lands, Modest, CodeS, NamesS, SizeS;
    match b
    case Done => NoJumpsLand([], pc, t);
    case Then(s, rest) =>
      var brk' := Further(brk, SizeB(rest));
      SizeOfS(s, vars, brk');
      CoversSplit(t, CodeS(s, vars, brk'), CodeB(rest, vars, brk), pc);
      StmtLands(s, vars, brk', pc, t);
      BlockLands(rest, vars, brk, pc + SizeS(s), t);
      LandsConcat(CodeS(s, vars, brk'), CodeB(rest, vars, brk), pc, t);
  }
}
