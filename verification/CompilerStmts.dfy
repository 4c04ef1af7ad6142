/** Compiling statements: forward jumps are emitted with distance zero and patched later, and the
    `break` sites of a loop are patched when its end is known. */
module CompilerStmts {
  import opened Words
  import opened X86
  import opened Machine
  import opened S = BarrelSyntax
  import opened Codegen

  // ----- Open break sites -----

  function Max(a: nat, b: nat): nat { if a > b then a else b }

  /** Positions of the jump distances of the breaks of `s` that leave `s`, when `s` starts at `at`. */
  function SitesS(s: Stmt, at: nat): seq<nat>
    decreases s
  {
    match s
    case If(c, t) => SitesB(t, at + SizeE(c) + 9)
    case IfElse(c, t, e) => SitesB(t, at + SizeE(c) + 9) + SitesB(e, at + SizeE(c) + 9 + SizeB(t) + 5)
    case Break => [at + 1]
    case _ => []
  }

  function SitesB(b: Block, at: nat): seq<nat>
    decreases b
  {
    match b
    case Done => []
    case Then(s, rest) => SitesS(s, at) + SitesB(rest, at + SizeS(s))
  }

  function CountS(s: Stmt): nat {
    match s
    case If(_, t) => CountB(t)
    case IfElse(_, t, e) => CountB(t) + CountB(e)
    case Break => 1
    case _ => 0
  }

  function CountB(b: Block): nat {
    match b
    case Done => 0
    case Then(s, rest) => CountS(s) + CountB(rest)
  }

  /** Most sites of `s` that are open at the same time. */
  function PeakS(s: Stmt): (n: nat)
    ensures n >= CountS(s)
  {
    match s
    case If(_, t) => PeakB(t)
    case IfElse(_, t, e) => Max(PeakB(t), CountB(t) + PeakB(e))
    case While(_, b) => PeakB(b)
    case Loop(b) => PeakB(b)
    case Break => 1
    case _ => 0
  }

  function PeakB(b: Block): (n: nat)
    ensures n >= CountB(b)
  {
    match b
    case Done => 0
    case Then(s, rest) => Max(PeakS(s), CountS(s) + PeakB(rest))
  }

  lemma {:induction false} SitesCountS(s: Stmt, at: nat)
    ensures |SitesS(s, at)| == CountS(s)
    decreases s
  {
    hide SizeE, SizeB, SitesB, CountB;
    match s
    case If(c, t) => SitesCountB(t, at + SizeE(c) + 9);
    case IfElse(c, t, e) => SitesCountB(t, at + SizeE(c) + 9); SitesCountB(e, at + SizeE(c) + 9 + SizeB(t) + 5);
    case _ =>
  }

  lemma {:induction false} SitesCountB(b: Block, at: nat)
    ensures |SitesB(b, at)| == CountB(b)
    decreases b
  {
    hide SizeS, SitesS, CountS;
    match b
    case Done =>
    case Then(s, rest) => SitesCountS(s, at); SitesCountB(rest, at + SizeS(s));
  }

  // ----- Patching -----

  /** `code` with the four bytes at `site` replaced by the distance `rel`. */
  function Patch(code: seq<byte>, site: nat, rel: int): (r: seq<byte>)
    ensures |r| == |code|
  {
    if site + 4 <= |code| then code[..site] + Le32(rel) + code[site + 4..] else code
  }

  /** All `sites` made to jump to `target`. */
  function PatchAll(code: seq<byte>, sites: seq<nat>, target: int): (r: seq<byte>)
    ensures |r| == |code|
    decreases |sites|
  {
    if sites == [] then code
    else PatchAll(Patch(code, sites[0], target - (sites[0] + 4)), sites[1..], target)
  }

  lemma {:induction false} PatchAllConcat(code: seq<byte>, a: seq<nat>, b: seq<nat>, target: int)
    ensures PatchAll(code, a + b, target) == PatchAll(PatchAll(code, a, target), b, target)
    decreases |a|
  {
    hide Patch;
    if a == [] {
      assert a + b == b;
    } else {
      assert (a + b)[1..] == a[1..] + b;
      PatchAllConcat(Patch(code, a[0], target - (a[0] + 4)), a[1..], b, target);
    }
  }

  /** Patching the distance that follows the opcode bytes `op`. */
  lemma PatchMiddle(pre: seq<byte>, op: seq<byte>, old': int, post: seq<byte>, rel: int)
    ensures Patch(pre + (op + Le32(old') + post), |pre| + |op|, rel) == pre + (op + Le32(rel) + post)
  {
    PatchBetween(pre, op, Le32(old'), Le32(rel), post);
  }

  /** The bytes `was` between two others are replaced by as many. */
  lemma PatchBetween(pre: seq<byte>, op: seq<byte>, was: seq<byte>, now: seq<byte>, post: seq<byte>)
    requires |was| == |now|
    ensures var code := pre + (op + was + post);
            var at := |pre| + |op|;
            at + |was| <= |code| && code[..at] + now + code[at + |was|..] == pre + (op + now + post)
  {
    var code := pre + (op + was + post);
    var at := |pre| + |op|;
    assert code == (pre + op) + was + post;
    assert code[..at] == pre + op;
    assert code[at + |was|..] == post;
  }

  lemma PatchJmp(pre: seq<byte>, old': int, post: seq<byte>, rel: int)
    ensures Patch(pre + (Bytes([Jmp(old')]) + post), |pre| + 1, rel) == pre + (Bytes([Jmp(rel)]) + post)
  {
    BytesOne(Jmp(old'));
    BytesOne(Jmp(rel));
    PatchMiddle(pre, [0xE9], old', post, rel);
  }

  lemma PatchTest(pre: seq<byte>, old': int, post: seq<byte>, rel: int)
    ensures Patch(pre + (Bytes([TestRaxRax, Je(old')]) + post), |pre| + 5, rel) ==
      pre + (Bytes([TestRaxRax, Je(rel)]) + post)
  {
    BytesTest(old');
    BytesTest(rel);
    PatchMiddle(pre, [0x48, 0x85, 0xC0, 0x0F, 0x84], old', post, rel);
  }

  lemma BytesOne(i: Instr)
    ensures Bytes([i]) == Encode(i)
  {
    hide Encode;
    assert [i][1..] == [];
    assert Encode(i) + [] == Encode(i);
  }

  lemma BytesTest(rel: int)
    ensures Bytes([TestRaxRax, Je(rel)]) == [0x48, 0x85, 0xC0, 0x0F, 0x84] + Le32(rel)
  {
    assert [TestRaxRax, Je(rel)][1..] == [Je(rel)];
    BytesOne(Je(rel));
  }

  /** Closing the breaks of a statement gives the code of the statement inside a loop. */
  lemma {:induction false} PatchStmt(s: Stmt, vars: Vars, d: nat, pre: seq<byte>, post: seq<byte>)
    requires Declares(vars, NamesS(s))
    ensures PatchAll(pre + (Bytes(CodeS(s, vars, None)) + post), SitesS(s, |pre|), |pre| + SizeS(s) + d) ==
            pre + (Bytes(CodeS(s, vars, Some(d))) + post)
    decreases s, 1
  {
    hide Bytes, Patch, PatchAll, CodeE, CodeB, CodeS, Names, SizeE;
    match s
    case If(c, t) =>
      var head := CodeE(c, vars) + [TestRaxRax, Je(SizeB(t))];
      GuardSize(c, SizeB(t), vars);
      IfShape(c, t, vars, None);
      IfShape(c, t, vars, Some(d));
      PatchBlockIn(t, vars, d, pre, Bytes(head), post);
    case IfElse(c, t, e) => PatchIfElse(c, t, e, vars, d, pre, post);
    case Break => PatchBreak(vars, d, pre, post);
    case _ => PatchNothing(s, vars, d, pre + (Bytes(CodeS(s, vars, None)) + post), |pre|);
  }

  lemma PatchBreak(vars: Vars, d: nat, pre: seq<byte>, post: seq<byte>)
    ensures PatchAll(pre + (Bytes(CodeS(Break, vars, None)) + post), SitesS(Break, |pre|), |pre| + SizeS(Break) + d) ==
            pre + (Bytes(CodeS(Break, vars, Some(d))) + post)
  {
    hide Bytes, Patch, PatchAll, Le32, Encode, CodeS, SitesS, SizeS;
    BreakShape(vars, d, |pre|);
    PatchJmp(pre, 0, post, d);
    PatchOne(pre + (Bytes([Jmp(0)]) + post), |pre| + 1, |pre| + 5 + d);
  }

  lemma BreakShape(vars: Vars, d: nat, at: nat)
    ensures CodeS(Break, vars, None) == [Jmp(0)] && CodeS(Break, vars, Some(d)) == [Jmp(d)]
    ensures SitesS(Break, at) == [at + 1] && SizeS(Break) == 5
  {
  }

  lemma PatchOne(code: seq<byte>, site: nat, target: int)
    ensures PatchAll(code, [site], target) == Patch(code, site, target - (site + 4))
  {
    hide Patch;
    assert [site][1..] == [];
  }

  /** Statements without open breaks. */
  lemma PatchNothing(s: Stmt, vars: Vars, d: nat, code: seq<byte>, at: nat)
    requires Declares(vars, NamesS(s)) && !s.If? && !s.IfElse? && !s.Break?
    ensures PatchAll(code, SitesS(s, at), at + SizeS(s) + d) == code && CodeS(s, vars, None) == CodeS(s, vars, Some(d))
  {
    hide Bytes, Patch, CodeE, CodeB;
  }

  lemma GuardSize(c: Expr, rel: int, vars: Vars)
    requires Declares(vars, Names(c))
    ensures Size(CodeE(c, vars) + [TestRaxRax, Je(rel)]) == SizeE(c) + 9
    ensures |Bytes(CodeE(c, vars) + [TestRaxRax, Je(rel)])| == SizeE(c) + 9
  {
    hide Bytes, CodeE;
    SizeOfE(c, vars);
    SizeConcat(CodeE(c, vars), [TestRaxRax, Je(rel)]);
    SizeOfTest([], rel);
    assert [TestRaxRax, Je(rel)] + [] == [TestRaxRax, Je(rel)];
    assert Size([]) == 0 by { Size1([]); }
  }

  lemma IfShape(c: Expr, t: Block, vars: Vars, brk: Distance)
    requires Declares(vars, NamesS(If(c, t)))
    ensures Bytes(CodeS(If(c, t), vars, brk)) ==
            Bytes(CodeE(c, vars) + [TestRaxRax, Je(SizeB(t))]) + Bytes(CodeB(t, vars, brk))
  {
    hide Bytes, CodeE, CodeB;
    var a, g, b := CodeE(c, vars), [TestRaxRax, Je(SizeB(t))], CodeB(t, vars, brk);
    assert a + (g + b) == (a + g) + b;
    BytesConcat(a + g, b);
  }

  /** PatchBlock behind some bytes that precede the block. */
  lemma {:induction false} PatchBlockIn(b: Block, vars: Vars, d: nat, pre: seq<byte>, mid: seq<byte>, post: seq<byte>)
    requires Declares(vars, NamesB(b))
    ensures PatchAll(pre + (mid + Bytes(CodeB(b, vars, None)) + post), SitesB(b, |pre| + |mid|),
      |pre| + |mid| + SizeB(b) + d) ==
            pre + (mid + Bytes(CodeB(b, vars, Some(d))) + post)
    decreases b, 2
  {
    hide Bytes, PatchAll, CodeB, SitesB, SizeB;
    PatchBlock(b, vars, d, pre + mid, post);
    Regroup(pre, mid, Bytes(CodeB(b, vars, None)), post);
    Regroup(pre, mid, Bytes(CodeB(b, vars, Some(d))), post);
  }

  lemma Regroup(a: seq<byte>, b: seq<byte>, c: seq<byte>, d: seq<byte>)
    ensures a + (b + c + d) == (a + b) + (c + d)
    ensures a + ((b + c) + d) == a + (b + (c + d))
  {
  }

  lemma {:induction false} PatchIfElse(c: Expr, t: Block, e: Block, vars: Vars, d: nat, pre: seq<byte>, post: seq<byte>)
    requires Declares(vars, NamesS(IfElse(c, t, e)))
    ensures var s := IfElse(c, t, e);
            PatchAll(pre + (Bytes(CodeS(s, vars, None)) + post), SitesS(s, |pre|), |pre| + SizeS(s) + d) ==
            pre + (Bytes(CodeS(s, vars, Some(d))) + post)
    decreases IfElse(c, t, e), 0, 1
  {
    hide Bytes, Patch, PatchAll, CodeE, CodeB, CodeS, Names, SizeE, SizeB;
    PatchBranches(c, t, e, vars, d, pre, post);
    IfElseShape(c, t, e, vars, None);
    IfElseShape(c, t, e, vars, Some(d));
  }

  lemma {:induction false} PatchBranches(c: Expr, t: Block, e: Block, vars: Vars, d: nat, pre: seq<byte>,
      post: seq<byte>)
    requires Declares(vars, NamesS(IfElse(c, t, e)))
    ensures var g, j := Bytes(CodeE(c, vars) + [TestRaxRax, Je(SizeB(t) + 5)]), Bytes([Jmp(SizeB(e))]);
            var t0, t1 := Bytes(CodeB(t, vars, None)), Bytes(CodeB(t, vars, Some(d + (5 + SizeB(e)))));
            var e0, e1 := Bytes(CodeB(e, vars, None)), Bytes(CodeB(e, vars, Some(d)));
            PatchAll(pre + (g + t0 + j + e0 + post), SitesS(IfElse(c, t, e), |pre|),
              |pre| + SizeS(IfElse(c, t, e)) + d) ==
            pre + (g + t1 + j + e1 + post)
    decreases IfElse(c, t, e), 0, 0
  {
    hide Bytes, Patch, PatchAll, CodeE, CodeB, Names, SizeE, SizeB;
    var g, j := Bytes(CodeE(c, vars) + [TestRaxRax, Je(SizeB(t) + 5)]), Bytes([Jmp(SizeB(e))]);
    var t0, t1 := Bytes(CodeB(t, vars, None)), Bytes(CodeB(t, vars, Some(d + (5 + SizeB(e)))));
    var e0, e1 := Bytes(CodeB(e, vars, None)), Bytes(CodeB(e, vars, Some(d)));
    GuardSize(c, SizeB(t) + 5, vars);
    JmpSize(SizeB(e));
    BlockBytes(t, vars, Some(d + (5 + SizeB(e))));
    var p := |pre| + SizeE(c) + 9;
    PatchBlockIn(t, vars, d + (5 + SizeB(e)), pre, g, j + e0 + post);
    PatchBlockIn(e, vars, d, pre, g + t1 + j, post);
    assert |g + t1 + j| == SizeE(c) + 9 + SizeB(t) + 5;
    PatchTwo(pre, g, t0, t1, j, e0, e1, post, SitesB(t, p), SitesB(e, p + SizeB(t) + 5),
      |pre| + SizeS(IfElse(c, t, e)) + d);
  }

  /** Patching one part, then another. */
  lemma PatchTwo(pre: seq<byte>, g: seq<byte>, t0: seq<byte>, t1: seq<byte>, j: seq<byte>, e0: seq<byte>, e1: seq<byte>,
                 post: seq<byte>, a: seq<nat>, b: seq<nat>, target: int)
    requires PatchAll(pre + (g + t0 + (j + e0 + post)), a, target) == pre + (g + t1 + (j + e0 + post))
    requires PatchAll(pre + (g + t1 + j + e0 + post), b, target) == pre + (g + t1 + j + e1 + post)
    ensures PatchAll(pre + (g + t0 + j + e0 + post), a + b, target) == pre + (g + t1 + j + e1 + post)
  {
    hide PatchAll;
    var code0, code1 := pre + (g + t0 + (j + e0 + post)), pre + (g + t1 + (j + e0 + post));
    assert code0 == pre + (g + t0 + j + e0 + post);
    assert code1 == pre + (g + t1 + j + e0 + post);
    PatchAllConcat(code0, a, b, target);
  }

  lemma JmpSize(rel: int)
    ensures |Bytes([Jmp(rel)])| == 5
  {
    BytesOne(Jmp(rel));
  }

  lemma BlockBytes(b: Block, vars: Vars, brk: Distance)
    requires Declares(vars, NamesB(b))
    ensures |Bytes(CodeB(b, vars, brk))| == SizeB(b)
  {
    SizeOfB(b, vars, brk);
  }

  lemma IfElseShape(c: Expr, t: Block, e: Block, vars: Vars, brk: Distance)
    requires Declares(vars, NamesS(IfElse(c, t, e)))
    ensures Bytes(CodeS(IfElse(c, t, e), vars, brk)) ==
            Bytes(CodeE(c, vars) + [TestRaxRax, Je(SizeB(t) + 5)]) + Bytes(CodeB(t, vars, Further(brk, 5 + SizeB(e)))) +
            Bytes([Jmp(SizeB(e))]) + Bytes(CodeB(e, vars, brk))
  {
    hide Bytes, CodeE, CodeB;
    var a, g, t', j, e' :=
      CodeE(c, vars), [TestRaxRax, Je(SizeB(t) + 5)], CodeB(t, vars, Further(brk, 5 + SizeB(e))), [Jmp(SizeB(e))],
        CodeB(e, vars, brk);
    BytesOfFour(a, g, t', j, e');
  }

  lemma BytesOfFour(a: seq<Instr>, g: seq<Instr>, t: seq<Instr>, j: seq<Instr>, e: seq<Instr>)
    ensures Bytes(a + (g + (t + (j + e)))) == Bytes(a + g) + Bytes(t) + Bytes(j) + Bytes(e)
  {
    hide Bytes;
    assert a + (g + (t + (j + e))) == a + g + t + j + e;
    BytesConcat(a + g + t + j, e);
    BytesConcat(a + g + t, j);
    BytesConcat(a + g, t);
  }

  /** Closing the breaks of a loop body gives the code of the body. */
  lemma {:induction false} PatchBlock(b: Block, vars: Vars, d: nat, pre: seq<byte>, post: seq<byte>)
    requires Declares(vars, NamesB(b))
    ensures PatchAll(pre + (Bytes(CodeB(b, vars, None)) + post), SitesB(b, |pre|), |pre| + SizeB(b) + d) ==
            pre + (Bytes(CodeB(b, vars, Some(d))) + post)
    decreases b, 1
  {
    hide Bytes, Patch, CodeS, SitesS, SizeS;
    match b
    case Done =>
    case Then(s, rest) =>
      var s0, s1 := Bytes(CodeS(s, vars, None)), Bytes(CodeS(s, vars, Some(d + SizeB(rest))));
      var r0, r1 := Bytes(CodeB(rest, vars, None)), Bytes(CodeB(rest, vars, Some(d)));
      BytesConcat(CodeS(s, vars, None), CodeB(rest, vars, None));
      BytesConcat(CodeS(s, vars, Some(d + SizeB(rest))), CodeB(rest, vars, Some(d)));
      var target := |pre| + SizeB(b) + d;
      var code := pre + (Bytes(CodeB(b, vars, None)) + post);
      Regroup(pre, s0, r0, post);
      Regroup(pre, s1, r0, post);
      Regroup(pre, s1, r1, post);
      PatchAllConcat(code, SitesS(s, |pre|), SitesB(rest, |pre| + SizeS(s)), target);
      PatchStmt(s, vars, d + SizeB(rest), pre, r0 + post);
      StmtBytes(s, vars, Some(d + SizeB(rest)));
      PatchBlock(rest, vars, d, pre + s1, post);
  }

  lemma StmtBytes(s: Stmt, vars: Vars, brk: Distance)
    requires Declares(vars, NamesS(s))
    ensures |Bytes(CodeS(s, vars, brk))| == SizeS(s)
  {
    SizeOfS(s, vars, brk);
  }
}
