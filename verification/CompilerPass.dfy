/** The state of the compiler after each kind of statement, composed of elementary actions. */
module CompilerPass {
  import opened Words
  import opened X86
  import opened Machine
  import opened S = BarrelSyntax
  import opened Codegen
  import opened ProgramCorrectness
  import opened CompilerSpec
  import opened CompilerStmts

  function EmitS(s: Stmt, vars: Vars): seq<byte> {
    DeclareSGrows(vars, s);
    Bytes(CodeS(s, DeclareS(vars, s), None))
  }

  function EmitB(b: Block, vars: Vars): seq<byte> {
    DeclareBGrows(vars, b);
    Bytes(CodeB(b, DeclareB(vars, b), None))
  }

  function FinishS(s: Snap, st: Stmt, rest: seq<Token>): Now {
    if |s.breaks| + PeakS(st) > MAX_BREAKS then None
    else Seal(rest, DeclareS(s.vars, st), s.code + EmitS(st, s.vars), s.breaks + SitesS(st, |s.code|))
  }

  function FinishB(s: Snap, b: Block, rest: seq<Token>): Now {
    if |s.breaks| + PeakB(b) > MAX_BREAKS then None
    else Seal(rest, DeclareB(s.vars, b), s.code + EmitB(b, s.vars), s.breaks + SitesB(b, |s.code|))
  }

  /** Compiling one statement. */
  function AfterS(n: Now): (n': Now)
    ensures n.Some? && n'.Some? ==> |n'.value.rest| < |n.value.rest|
  {
    match n
    case None => None
    case Some(s) =>
      match ParseStmt(s.rest)
      case None => None
      case Some((st, rest)) => FinishS(s, st, rest)
  }

  /** Compiling a block in braces. */
  function AfterB(n: Now): Now {
    match n
    case None => None
    case Some(s) =>
      match ParseBlock(s.rest)
      case None => None
      case Some((b, rest)) => FinishB(s, b, rest)
  }

  /** Compiling statements until a `}`, the end of input or a failure. */
  function AfterStmts(n: Now): Now
    decreases if n.Some? then 1 + |n.value.rest| else 0
  {
    if n.None? || n.value.rest == [] || n.value.rest[0] == TRBrace then n
    else AfterStmts(AfterS(n))
  }

  function AfterPatch(n: Now, site: nat, rel: int): Now {
    match n
    case None => None
    case Some(s) => Some(s.(code := Patch(s.code, site, rel)))
  }

  /** Closing the break sites from index `base` on. */
  function AfterClose(n: Now, base: nat, target: int): Now {
    match n
    case None => None
    case Some(s) =>
      if base > |s.breaks| then n
      else Some(s.(code := PatchAll(s.code, s.breaks[base..], target), breaks := s.breaks[..base]))
  }

  // ----- Sizes and limits -----

  lemma EmitSSize(s: Stmt, vars: Vars)
    ensures |EmitS(s, vars)| == SizeS(s)
  {
    DeclareSGrows(vars, s);
    StmtBytes(s, DeclareS(vars, s), None);
  }

  lemma EmitBSize(b: Block, vars: Vars)
    ensures |EmitB(b, vars)| == SizeB(b)
  {
    DeclareBGrows(vars, b);
    BlockBytes(b, DeclareB(vars, b), None);
  }

  predicate FitsB(s: Snap, b: Block, rest: seq<Token>) {
    && Head(rest) != Some(TBad) && |DeclareB(s.vars, b)| <= MAX_LOCALS
    && |s.code| + SizeB(b) <= MAX_CODE && |s.breaks| + PeakB(b) <= MAX_BREAKS
  }

  lemma FinishBFits(s: Snap, b: Block, rest: seq<Token>)
    ensures FinishB(s, b, rest).Some? <==> FitsB(s, b, rest)
  {
    hide SizeB, EmitB, DeclareB, SitesB, CountB;
    EmitBSize(b, s.vars);
    SitesCountB(b, |s.code|);
    assert PeakB(b) >= CountB(b);
  }

  predicate FitsS(s: Snap, st: Stmt, rest: seq<Token>) {
    && Head(rest) != Some(TBad) && |DeclareS(s.vars, st)| <= MAX_LOCALS
    && |s.code| + SizeS(st) <= MAX_CODE && |s.breaks| + PeakS(st) <= MAX_BREAKS
  }

  lemma FinishSFits(s: Snap, st: Stmt, rest: seq<Token>)
    ensures FinishS(s, st, rest).Some? <==> FitsS(s, st, rest)
  {
    hide SizeS, EmitS, DeclareS, SitesS, CountS;
    EmitSSize(st, s.vars);
    SitesCountS(st, |s.code|);
    assert PeakS(st) >= CountS(st);
  }

  // ----- Sequences of statements -----

  lemma EmitThen(st: Stmt, b: Block, vars: Vars)
    ensures EmitB(Then(st, b), vars) == EmitS(st, vars) + EmitB(b, DeclareS(vars, st))
  {
    hide Bytes, CodeS;
    var vs := DeclareS(vars, st);
    var vb := DeclareB(vs, b);
    DeclareSGrows(vars, st);
    DeclareBGrows(vs, b);
    DeclareBGrows(vars, Then(st, b));
    CodeSStable(st, vs, vb, None);
    BytesConcat(CodeS(st, vb, None), CodeB(b, vb, None));
  }

  /** Statement by statement is the same as all at once. */
  lemma FinishThen(s: Snap, st: Stmt, mid: seq<Token>, b: Block, rest: seq<Token>)
    requires FinishS(s, st, mid).Some?
    ensures FinishB(s, Then(st, b), rest) == FinishB(FinishS(s, st, mid).value, b, rest)
  {
    hide EmitB, EmitS, DeclareS, SizeS, SitesS, PeakS, CountS;
    FinishSFits(s, st, mid);
    EmitThen(st, b, s.vars);
    EmitSSize(st, s.vars);
    SitesCountS(st, |s.code|);
    var s' := FinishS(s, st, mid).value;
    assert s'.code + EmitB(b, s'.vars) == s.code + EmitB(Then(st, b), s.vars);
    assert s'.breaks + SitesB(b, |s'.code|) == s.breaks + SitesB(Then(st, b), |s.code|);
  }

  lemma FinishThenFails(s: Snap, st: Stmt, b: Block, rest: seq<Token>)
    requires |DeclareS(s.vars, st)| > MAX_LOCALS || |s.code| + SizeS(st) > MAX_CODE ||
      |s.breaks| + PeakS(st) > MAX_BREAKS
    ensures FinishB(s, Then(st, b), rest).None?
  {
    hide SizeS, DeclareS, PeakS;
    FinishBFits(s, Then(st, b), rest);
    DeclareBGrows(DeclareS(s.vars, st), b);
  }

  /** What the statement loop computes, in terms of the parse. */
  ghost function ParsedStmts(s: Snap): Now {
    match ParseStmts(s.rest)
    case None => None
    case Some((b, rest)) => FinishB(s, b, rest)
  }

  lemma {:induction false} StmtsParsed(s: Snap)
    requires Within(s)
    ensures AfterStmts(Some(s)) == ParsedStmts(s)
    decreases |s.rest|
  {
    hide FinishS, FinishB, ParseStmt;
    if s.rest == [] || s.rest[0] == TRBrace {
      FinishDone(s);
    } else {
      match ParseStmt(s.rest)
      case None =>
      case Some((st, mid)) =>
        var n := FinishS(s, st, mid);
        FinishSFits(s, st, mid);
        if n.Some? {
          FinishSWithin(s, st, mid);
          StmtsParsed(n.value);
          if ParseStmts(mid).Some? {
            FinishThen(s, st, mid, ParseStmts(mid).value.0, ParseStmts(mid).value.1);
          }
        } else if Head(mid) == Some(TBad) {
          BadStmts(mid);
        } else if ParseStmts(mid).Some? {
          FinishThenFails(s, st, ParseStmts(mid).value.0, ParseStmts(mid).value.1);
        }
    }
  }

  lemma FinishDone(s: Snap)
    requires Within(s)
    ensures FinishB(s, Done, s.rest) == Some(s)
  {
    assert s.code + [] == s.code && s.breaks + [] == s.breaks;
  }

  lemma FinishSWithin(s: Snap, st: Stmt, rest: seq<Token>)
    requires FinishS(s, st, rest).Some?
    ensures Within(FinishS(s, st, rest).value) && FinishS(s, st, rest).value.rest == rest
  {
    hide EmitS, DeclareS, SitesS, PeakS;
  }

  lemma BadStmts(ts: seq<Token>)
    requires Head(ts) == Some(TBad)
    ensures ParseStmts(ts).None?
  {
  }

  /** A block is `{`, statements, `}`. */
  lemma BlockParsed(n: Now)
    requires n.Some? ==> Within(n.value)
    ensures AfterB(n) == AfterEat(AfterStmts(AfterEat(n, TLBrace)), TRBrace)
  {
    hide FinishB, ParseStmts, Seal, AfterStmts, EmitB, SizeB, DeclareB;
    if n.Some? && Head(n.value.rest) == Some(TLBrace) {
      var s := n.value;
      var r := s.rest[1..];
      if Head(r) == Some(TBad) {
        BadStmts(r);
        SealBad(r, s.vars, s.code, s.breaks);
        AfterStmtsNone();
      } else {
        var s1 := s.(rest := r);
        SealGood(s1);
        StmtsParsed(s1);
        if ParseStmts(r).Some? {
          FinishBRest(s, s1, ParseStmts(r).value.0, ParseStmts(r).value.1);
        }
      }
    } else {
      AfterStmtsNone();
    }
  }

  lemma AfterStmtsNone()
    ensures AfterStmts(None) == None
  {
  }

  lemma SealBad(rest: seq<Token>, vars: Vars, code: seq<byte>, breaks: seq<nat>)
    requires Head(rest) == Some(TBad)
    ensures Seal(rest, vars, code, breaks).None?
  {
  }

  lemma SealGood(s: Snap)
    requires Within(s)
    ensures Seal(s.rest, s.vars, s.code, s.breaks) == Some(s)
  {
  }

  lemma FinishBRest(s: Snap, s1: Snap, b: Block, rest: seq<Token>)
    requires s1 == s.(rest := s1.rest) && (rest == [] || rest[0] == TRBrace)
    ensures AfterEat(FinishB(s1, b, rest), TRBrace) == if rest == [] then None else FinishB(s, b, rest[1..])
  {
    hide EmitB, DeclareB, SitesB, PeakB;
  }

  // ----- Compound statements -----

  /** State after a condition, the test with an open jump, and the block. */
  function AfterGuarded(n: Now): Now {
    AfterB(AfterEmit(AfterE(n, 0), Bytes([TestRaxRax, Je(0)])))
  }

  /** The bytes of a condition and its block, with distance `rel` in the test. */
  function GuardedBytes(c: Expr, b: Block, vars: Vars, rel: int): seq<byte> {
    EmitE(c, vars) + (Bytes([TestRaxRax, Je(rel)]) + EmitB(b, DeclareE(vars, c)))
  }

  function GuardedResult(s: Snap, c: Expr, b: Block, rest: seq<Token>): Now {
    if |s.breaks| + PeakB(b) > MAX_BREAKS then None
    else Seal(rest, DeclareB(DeclareE(s.vars, c), b), s.code + GuardedBytes(c, b, s.vars, 0),
              s.breaks + SitesB(b, |s.code| + SizeE(c) + 9))
  }

  lemma GuardedBytesSize(c: Expr, b: Block, vars: Vars, rel: int)
    ensures |GuardedBytes(c, b, vars, rel)| == SizeE(c) + 9 + SizeB(b)
  {
    hide EmitE, EmitB, SizeE, SizeB;
    EmitESize(c, vars);
    EmitBSize(b, DeclareE(vars, c));
    BytesTest(rel);
  }

  lemma GuardedParsed(s: Snap)
    requires Within(s)
    ensures AfterGuarded(Some(s)) ==
            match ParseGuarded(s.rest)
            case None => None
            case Some((g, rest)) => GuardedResult(s, g.0, g.1, rest)
  {
    hide ParseExpr, ParseBlock, FinishB, EmitE, EmitB, Bytes, DeclareE, DeclareB, SizeE, SizeB, PeakB, SitesB, CountB;
    assert ParseExpr(s.rest) == Parse(s.rest, 0) by { ParseExprIs(s.rest); }
    match Parse(s.rest, 0)
    case None =>
    case Some((c, mid)) =>
      EmitESize(c, s.vars);
      BytesTest(0);
      var n := AfterEmit(FinishE(s, c, mid), Bytes([TestRaxRax, Je(0)]));
      match ParseBlock(mid)
      case None =>
      case Some((b, rest)) =>
        GuardedBytesSize(c, b, s.vars, 0);
        if n.Some? {
          GuardedFinish(s, n.value, c, mid, b, rest);
        } else {
          SitesCountB(b, |s.code| + SizeE(c) + 9);
          DeclareBGrows(DeclareE(s.vars, c), b);
          BadBlock(mid);
        }
  }

  lemma ParseExprIs(ts: seq<Token>)
    ensures ParseExpr(ts) == Parse(ts, 0)
  {
  }

  lemma BadBlock(ts: seq<Token>)
    ensures Head(ts) == Some(TBad) ==> ParseBlock(ts).None?
  {
  }

  lemma GuardedFinish(s: Snap, s': Snap, c: Expr, mid: seq<Token>, b: Block, rest: seq<Token>)
    requires AfterEmit(FinishE(s, c, mid), Bytes([TestRaxRax, Je(0)])) == Some(s')
    ensures FinishB(s', b, rest) == GuardedResult(s, c, b, rest)
  {
    hide EmitE, EmitB, Bytes, DeclareE, DeclareB, SizeE, SizeB, PeakB, SitesB;
    EmitESize(c, s.vars);
    BytesTest(0);
    assert s'.code + EmitB(b, s'.vars) == s.code + GuardedBytes(c, b, s.vars, 0);
  }

  /** A guarded block that does not fit. */
  lemma GuardedFails(s: Snap, c: Expr, b: Block, rest: seq<Token>)
    requires GuardedResult(s, c, b, rest).None? && Head(rest) != Some(TBad)
    ensures |DeclareB(DeclareE(s.vars, c), b)| > MAX_LOCALS || |s.code| + SizeE(c) + 9 + SizeB(b) > MAX_CODE ||
            |s.breaks| + PeakB(b) > MAX_BREAKS
  {
    hide EmitE, EmitB, Bytes, DeclareE, DeclareB, SizeE, SizeB, SitesB, CountB, GuardedBytes;
    GuardedBytesSize(c, b, s.vars, 0);
    SitesCountB(b, |s.code| + SizeE(c) + 9);
    assert PeakB(b) >= CountB(b);
  }

  // ----- if -----

  function IfSpec(n: Now): Now {
    var n1 := AfterE(AfterNext(n), 0);
    var n2 := AfterB(AfterEmit(n1, Bytes([TestRaxRax, Je(0)])));
    if n2.None? then None else IfTail(n2, |n1.value.code| + 5)
  }

  /** Behind the block of a conditional: the else branch, or the patch of the jump. */
  function IfTail(n: Now, site: nat): Now
    requires n.Some?
  {
    if Head(n.value.rest) == Some(TElse) then ElseSpec(n, site)
    else AfterPatch(n, site, |n.value.code| - (site + 4))
  }

  function ElseSpec(n2: Now, site: nat): Now
    requires n2.Some?
  {
    var n3 := AfterEmit(AfterNext(n2), Bytes([Jmp(0)]));
    if n3.None? then None
    else
      var siteEnd := |n2.value.code| + 1;
      var n4 := AfterB(AfterPatch(n3, site, |n3.value.code| - (site + 4)));
      if n4.None? then None else AfterPatch(n4, siteEnd, |n4.value.code| - (siteEnd + 4))
  }

  lemma IfSpecIs(n: Now)
    ensures var n1 := AfterE(AfterNext(n), 0);
            var n2 := AfterB(AfterEmit(n1, Bytes([TestRaxRax, Je(0)])));
            IfSpec(n) == if n2.None? then None else IfTail(n2, |n1.value.code| + 5)
  {
    hide AfterE, AfterNext, IfTail, Bytes;
  }

  lemma IfTailIs(n: Now, site: nat)
    requires n.Some?
    ensures IfTail(n, site) ==
            if Head(n.value.rest) == Some(TElse) then ElseSpec(n, site)
            else AfterPatch(n, site, |n.value.code| - (site + 4))
  {
    hide AfterPatch, ElseSpec;
  }

  lemma ElseSpecIs(n: Now, site: nat)
    requires n.Some?
    ensures var n3 := AfterEmit(AfterNext(n), Bytes([Jmp(0)]));
            ElseSpec(n, site) ==
            if n3.None? then None
            else
              var siteEnd := |n.value.code| + 1;
              var n4 := AfterB(AfterPatch(n3, site, |n3.value.code| - (site + 4)));
              if n4.None? then None else AfterPatch(n4, siteEnd, |n4.value.code| - (siteEnd + 4))
  {
    hide AfterEmit, AfterB, AfterNext, AfterPatch, Bytes;
  }

  lemma EmitIf(c: Expr, t: Block, vars: Vars)
    ensures EmitS(If(c, t), vars) == GuardedBytes(c, t, vars, SizeB(t))
  {
    hide Bytes, CodeE, CodeB;
    var vc := DeclareE(vars, c);
    var vt := DeclareB(vc, t);
    DeclareEGrows(vars, c);
    DeclareBGrows(vc, t);
    DeclareSGrows(vars, If(c, t));
    CodeEStable(c, vc, vt);
    BytesConcat([TestRaxRax, Je(SizeB(t))], CodeB(t, vt, None));
    BytesConcat(CodeE(c, vt), [TestRaxRax, Je(SizeB(t))] + CodeB(t, vt, None));
  }

  /** The guard's open jump, patched. */
  lemma PatchGuarded(pre: seq<byte>, c: Expr, b: Block, vars: Vars, post: seq<byte>, rel: int)
    ensures Patch(pre + (GuardedBytes(c, b, vars, 0) + post), |pre| + SizeE(c) + 5, rel) ==
            pre + (GuardedBytes(c, b, vars, rel) + post)
  {
    hide EmitE, EmitB, Bytes, Patch, SizeE;
    var e, b' := EmitE(c, vars), EmitB(b, DeclareE(vars, c));
    EmitESize(c, vars);
    PatchTest(pre + e, 0, b' + post, rel);
    Shuffle(pre, e, Bytes([TestRaxRax, Je(0)]), b', post);
    Shuffle(pre, e, Bytes([TestRaxRax, Je(rel)]), b', post);
  }

  lemma Shuffle(a: seq<byte>, b: seq<byte>, c: seq<byte>, d: seq<byte>, e: seq<byte>)
    ensures a + ((b + (c + d)) + e) == (a + b) + (c + (d + e))
  {
  }

  lemma NoPost(pre: seq<byte>, mid: seq<byte>)
    ensures pre + (mid + []) == pre + mid
  {
    assert mid + [] == mid;
  }

  /** Compiling `if` is what the statement compiles to. */
  lemma IfParsed(s: Snap)
    requires Within(s) && Head(s.rest) == Some(TIf)
    ensures AfterS(Some(s)) == IfSpec(Some(s))
  {
    hide ParseGuarded, ParseBlock, Parse, FinishS, FinishE, AfterB, ElseSpec, GuardedResult, SizeE, Bytes, DeclareE;
    hide DeclareB;
    var s1 := s.(rest := s.rest[1..]);
    if Head(s1.rest) == Some(TBad) {
      BadGuarded(s1.rest);
      AfterBNone();
    } else {
      GuardedParsed(s1);
      if ParseGuarded(s1.rest).Some? {
        var ((c, t), rest) := ParseGuarded(s1.rest).value;
        GuardedCondition(s1, c, t, rest);
        if Head(rest) == Some(TElse) {
          IfElseParsed(s, s1, c, t, rest);
        } else {
          IfOnlyParsed(s, s1, c, t, rest);
        }
      }
    }
  }

  lemma AfterBNone()
    ensures AfterB(None) == None
  {
  }

  lemma BadGuarded(ts: seq<Token>)
    requires Head(ts) == Some(TBad)
    ensures ParseGuarded(ts).None?
  {
    BadHead(ts, 0);
  }

  /** The condition compiles if the guarded block does, and its code has the expected length. */
  lemma GuardedCondition(s: Snap, c: Expr, t: Block, rest: seq<Token>)
    requires Within(s) && ParseGuarded(s.rest) == Some(((c, t), rest))
    ensures GuardedResult(s, c, t, rest).Some? ==>
              AfterE(Some(s), 0).Some? && |AfterE(Some(s), 0).value.code| == |s.code| + SizeE(c)
    ensures GuardedResult(s, c, t, rest).Some? ==> GuardedResult(s, c, t, rest).value.rest == rest
  {
    hide EmitE, EmitB, Bytes, DeclareE, DeclareB, SizeE, SizeB, PeakB, SitesB, ParseBlock;
    ParseExprIs(s.rest);
    var mid := Parse(s.rest, 0).value.1;
    BadBlock(mid);
    EmitESize(c, s.vars);
    GuardedBytesSize(c, t, s.vars, 0);
    DeclareBGrows(DeclareE(s.vars, c), t);
  }

  lemma IfOnlyParsed(s: Snap, s1: Snap, c: Expr, t: Block, rest: seq<Token>)
    requires s1 == s.(rest := s1.rest) && Head(rest) != Some(TElse)
    ensures var n := GuardedResult(s1, c, t, rest); var site := |s.code| + SizeE(c) + 5;
            FinishS(s, If(c, t), rest) == if n.None? then None else AfterPatch(n, site, |n.value.code| - (site + 4))
  {
    hide EmitE, EmitB, EmitS, Bytes, DeclareE, DeclareB, SizeE, SizeB, SitesB, Patch, GuardedBytes, PeakB;
    EmitIf(c, t, s.vars);
    GuardedBytesSize(c, t, s.vars, 0);
    GuardedBytesSize(c, t, s.vars, SizeB(t));
    PatchGuarded(s.code, c, t, s.vars, [], SizeB(t));
    NoPost(s.code, GuardedBytes(c, t, s.vars, 0));
    NoPost(s.code, GuardedBytes(c, t, s.vars, SizeB(t)));
  }

  lemma EmitIfElse(c: Expr, t: Block, e: Block, vars: Vars)
    ensures EmitS(IfElse(c, t, e), vars) ==
            GuardedBytes(c, t, vars, SizeB(t) + 5) + (Bytes([Jmp(SizeB(e))]) + EmitB(e, DeclareB(DeclareE(vars, c), t)))
  {
    hide Bytes, CodeE, CodeB, Declares;
    var vc := DeclareE(vars, c);
    var vt := DeclareB(vc, t);
    var ve := DeclareB(vt, e);
    DeclareEGrows(vars, c);
    DeclareBGrows(vc, t);
    DeclareBGrows(vt, e);
    DeclareSGrows(vars, IfElse(c, t, e));
    CodeEStable(c, vc, vt);
    CodeEStable(c, vt, ve);
    CodeBStable(t, vt, ve, None);
    IfElseShape(c, t, e, ve, None);
    BytesConcat(CodeE(c, vc), [TestRaxRax, Je(SizeB(t) + 5)]);
    Shuffle4(Bytes(CodeE(c, vc)), Bytes([TestRaxRax, Je(SizeB(t) + 5)]), Bytes(CodeB(t, vt, None)),
      Bytes([Jmp(SizeB(e))]), Bytes(CodeB(e, ve, None)));
  }

  lemma Shuffle4(a: seq<byte>, b: seq<byte>, c: seq<byte>, d: seq<byte>, e: seq<byte>)
    ensures (a + b) + c + d + e == (a + (b + c)) + (d + e)
  {
  }

  ghost function IfElseResult(s: Snap, c: Expr, t: Block, ts: seq<Token>): Now {
    match ParseBlock(ts)
    case None => None
    case Some((e, rest)) => FinishS(s, IfElse(c, t, e), rest)
  }

  lemma IfElseParsed(s: Snap, s1: Snap, c: Expr, t: Block, rest: seq<Token>)
    requires Within(s) && s1 == s.(rest := s1.rest) && Head(rest) == Some(TElse)
    ensures var n := GuardedResult(s1, c, t, rest);
            IfElseResult(s, c, t, rest[1..]) == if n.None? then None else ElseSpec(n, |s.code| + SizeE(c) + 5)
  {
    hide EmitE, EmitB, EmitS, Bytes, DeclareE, DeclareB, SizeE, SizeB, SitesB, Patch, GuardedBytes, PeakB, CountB;
    hide ParseBlock, FinishS, FinishB;
    var n := GuardedResult(s1, c, t, rest);
    BadBlock(rest[1..]);
    GuardedBytesSize(c, t, s.vars, 0);
    JmpSize(0);
    if ParseBlock(rest[1..]).Some? {
      var (e, rest') := ParseBlock(rest[1..]).value;
      FinishSFits(s, IfElse(c, t, e), rest');
      IfElseLimits(s, c, t, e);
      if n.None? {
        GuardedFails(s1, c, t, rest);
      } else {
        var n3 := AfterEmit(AfterNext(n), Bytes([Jmp(0)]));
        if n3.Some? {
          ElseFinish(s, s1, c, t, rest, e, rest');
        }
      }
    }
  }

  /** The limits of an if-else cover those of its parts. */
  lemma IfElseLimits(s: Snap, c: Expr, t: Block, e: Block)
    ensures |DeclareS(s.vars, IfElse(c, t, e))| >= |DeclareB(DeclareE(s.vars, c), t)|
    ensures SizeS(IfElse(c, t, e)) == SizeE(c) + 9 + SizeB(t) + 5 + SizeB(e)
    ensures PeakS(IfElse(c, t, e)) >= PeakB(t)
  {
    hide DeclareE, SizeE, SizeB, PeakB, CountB;
    DeclareBGrows(DeclareB(DeclareE(s.vars, c), t), e);
  }

  lemma ElseFinish(s: Snap, s1: Snap, c: Expr, t: Block, rest: seq<Token>, e: Block, rest': seq<Token>)
    requires Within(s) && s1 == s.(rest := s1.rest) && GuardedResult(s1, c, t, rest).Some? && Head(rest) == Some(TElse)
    requires ParseBlock(rest[1..]) == Some((e, rest'))
    requires AfterEmit(AfterNext(GuardedResult(s1, c, t, rest)), Bytes([Jmp(0)])).Some?
    ensures ElseSpec(GuardedResult(s1, c, t, rest), |s.code| + SizeE(c) + 5) == FinishS(s, IfElse(c, t, e), rest')
  {
    hide EmitE, EmitB, EmitS, Bytes, DeclareE, DeclareB, SizeE, SizeB, SitesB, Patch, GuardedBytes, PeakB, ParseBlock;
    hide FinishB, FinishS, CountB;
    var g := GuardedResult(s1, c, t, rest).value;
    var site := |s.code| + SizeE(c) + 5;
    GuardedBytesSize(c, t, s.vars, 0);
    GuardedBytesSize(c, t, s.vars, SizeB(t) + 5);
    JmpSize(0);
    var n3 := AfterEmit(AfterNext(Some(g)), Bytes([Jmp(0)])).value;
    PatchGuarded(s.code, c, t, s.vars, Bytes([Jmp(0)]), SizeB(t) + 5);
    assert n3.code == s.code + (GuardedBytes(c, t, s.vars, 0) + Bytes([Jmp(0)]));
    var x := AfterPatch(Some(n3), site, |n3.code| - (site + 4)).value;
    assert x.code == s.code + (GuardedBytes(c, t, s.vars, SizeB(t) + 5) + Bytes([Jmp(0)]));
    ElseClose(s, x, c, t, e, rest');
  }

  /** From the state `x` before the else block to the end of the statement. */
  lemma ElseClose(s: Snap, x: Snap, c: Expr, t: Block, e: Block, rest': seq<Token>)
    requires Within(s) && x.vars == DeclareB(DeclareE(s.vars, c), t) && |s.breaks| + PeakB(t) <= MAX_BREAKS
    requires x.code == s.code + (GuardedBytes(c, t, s.vars, SizeB(t) + 5) + Bytes([Jmp(0)]))
    requires x.breaks == s.breaks + SitesB(t, |s.code| + SizeE(c) + 9)
    ensures var n := FinishB(x, e, rest'); var siteEnd := |x.code| - 4;
            (if n.None? then None else AfterPatch(n, siteEnd, |n.value.code| - (siteEnd + 4))) ==
              FinishS(s, IfElse(c, t, e), rest')
  {
    hide EmitE, EmitB, EmitS, Bytes, DeclareE, DeclareB, SizeE, SizeB, SitesB, Patch, GuardedBytes, PeakB, CountB;
    var g := GuardedBytes(c, t, s.vars, SizeB(t) + 5);
    var e' := EmitB(e, x.vars);
    GuardedBytesSize(c, t, s.vars, SizeB(t) + 5);
    JmpSize(0);
    JmpSize(SizeB(e));
    EmitBSize(e, x.vars);
    EmitIfElse(c, t, e, s.vars);
    SitesCountB(t, |s.code| + SizeE(c) + 9);
    PatchJmp(s.code + g, 0, e', SizeB(e));
    assert x.code + e' == (s.code + g) + (Bytes([Jmp(0)]) + e');
    assert s.code + EmitS(IfElse(c, t, e), s.vars) == (s.code + g) + (Bytes([Jmp(SizeB(e))]) + e');
    assert x.breaks + SitesB(e, |x.code|) == s.breaks + SitesS(IfElse(c, t, e), |s.code|);
  }

  // ----- while and loop -----

  function WhileSpec(n: Now): Now {
    var n1 := AfterE(AfterNext(n), 0);
    var n2 := AfterEmit(AfterB(AfterEmit(n1, Bytes([TestRaxRax, Je(0)]))), Bytes([Jmp(0)]));
    if n2.None? then None
    else
      var end := |n2.value.code|;
      var siteEnd, siteBack := |n1.value.code| + 5, end - 4;
      if siteBack < 0 then None
      else CloseLoop(n2, |n.value.code|, siteBack, Some(siteEnd), |n.value.breaks|)
  }

  function LoopSpec(n: Now): Now {
    var n2 := AfterEmit(AfterB(AfterNext(n)), Bytes([Jmp(0)]));
    if n2.None? then None
    else
      var siteBack := |n2.value.code| - 4;
      if siteBack < 0 then None
      else CloseLoop(n2, |n.value.code|, siteBack, None, |n.value.breaks|)
  }

  lemma WhileSpecIs(n: Now)
    ensures var n1 := AfterE(AfterNext(n), 0);
            var n2 := AfterEmit(AfterB(AfterEmit(n1, Bytes([TestRaxRax, Je(0)]))), Bytes([Jmp(0)]));
            WhileSpec(n) ==
            if n2.None? then None
            else
              var siteEnd, siteBack := |n1.value.code| + 5, |n2.value.code| - 4;
              if siteBack < 0 then None
              else CloseLoop(n2, |n.value.code|, siteBack, Some(siteEnd), |n.value.breaks|)
  {
    hide AfterE, AfterNext, CloseLoop, Bytes;
  }

  lemma LoopSpecIs(n: Now)
    ensures var n2 := AfterEmit(AfterB(AfterNext(n)), Bytes([Jmp(0)]));
            LoopSpec(n) ==
            if n2.None? then None
            else
              var siteBack := |n2.value.code| - 4;
              if siteBack < 0 then None
              else CloseLoop(n2, |n.value.code|, siteBack, None, |n.value.breaks|)
  {
    hide CloseLoop, Bytes;
  }

  /** Patch the jump back to `top`, the guard's jump to the end, and the breaks. */
  function CloseLoop(n: Now, top: nat, siteBack: nat, siteEnd: Option<nat>, base: nat): (r: Now)
    requires n.Some?
    ensures r.Some?
  {
    var end := |n.value.code|;
    var n3 := AfterPatch(n, siteBack, top - (siteBack + 4));
    var n4 := match siteEnd
              case None => n3
              case Some(site) => AfterPatch(n3, site, end - (site + 4));
    AfterClose(n4, base, end)
  }

  /** The bytes of a loop body once its breaks are closed. */
  function ClosedB(b: Block, vars: Vars): seq<byte> {
    DeclareBGrows(vars, b);
    Bytes(CodeB(b, DeclareB(vars, b), Some(5)))
  }

  lemma EmitWhile(c: Expr, b: Block, vars: Vars)
    ensures EmitS(While(c, b), vars) ==
            EmitE(c, vars) + (Bytes([TestRaxRax, Je(SizeB(b) + 5)]) +
              (ClosedB(b, DeclareE(vars, c)) + Bytes([Jmp(0 - SizeS(While(c, b)))])))
  {
    hide Bytes, CodeE, CodeB, Declares;
    var vc := DeclareE(vars, c);
    var vb := DeclareB(vc, b);
    DeclareEGrows(vars, c);
    DeclareBGrows(vc, b);
    DeclareSGrows(vars, While(c, b));
    CodeEStable(c, vc, vb);
    var g, j, b' := [TestRaxRax, Je(SizeB(b) + 5)], [Jmp(0 - SizeS(While(c, b)))], CodeB(b, vb, Some(5));
    BytesOfThree(CodeE(c, vb), g, b', j);
  }

  lemma BytesOfThree(a: seq<Instr>, g: seq<Instr>, b: seq<Instr>, j: seq<Instr>)
    ensures Bytes(a + (g + (b + j))) == Bytes(a) + (Bytes(g) + (Bytes(b) + Bytes(j)))
  {
    hide Bytes;
    BytesConcat(b, j);
    BytesConcat(g, b + j);
    BytesConcat(a, g + (b + j));
  }

  lemma EmitLoop(b: Block, vars: Vars)
    ensures EmitS(Loop(b), vars) == ClosedB(b, vars) + Bytes([Jmp(0 - SizeS(Loop(b)))])
  {
    hide Bytes, CodeB;
    DeclareBGrows(vars, b);
    DeclareSGrows(vars, Loop(b));
    BytesConcat(CodeB(b, DeclareB(vars, b), Some(5)), [Jmp(0 - SizeS(Loop(b)))]);
  }

  lemma ClosePatches(pre: seq<byte>, b: Block, vars: Vars, post: seq<byte>)
    requires |post| == 5
    ensures PatchAll(pre + (EmitB(b, vars) + post), SitesB(b, |pre|), |pre| + SizeB(b) + 5) ==
      pre + (ClosedB(b, vars) + post)
  {
    hide Bytes, CodeB, PatchAll, SitesB, SizeB, DeclareB, Declares;
    DeclareBGrows(vars, b);
    PatchBlock(b, DeclareB(vars, b), 5, pre, post);
  }

  /** The jump back at the end of a loop, patched. */
  lemma PatchBack(pre: seq<byte>, mid: seq<byte>, rel: int)
    ensures |pre + (mid + Bytes([Jmp(0)]))| == |pre| + |mid| + 5
    ensures Patch(pre + (mid + Bytes([Jmp(0)])), |pre| + |mid| + 1, rel) == pre + (mid + Bytes([Jmp(rel)]))
  {
    hide Bytes, Patch;
    JmpSize(0);
    PatchJmp(pre + mid, 0, [], rel);
    NoPost(pre + mid, Bytes([Jmp(0)]));
    NoPost(pre + mid, Bytes([Jmp(rel)]));
    assert pre + mid + Bytes([Jmp(0)]) == pre + (mid + Bytes([Jmp(0)]));
    assert pre + mid + Bytes([Jmp(rel)]) == pre + (mid + Bytes([Jmp(rel)]));
  }

  /** All patches of a loop whose body follows `pre`; `sites` are the breaks of the body. */
  lemma LoopCloses(s: Snap, x: Snap, pre: seq<byte>, b: Block, vars: Vars, sites: seq<nat>, end: nat, rel: int)
    requires x.code == pre + (EmitB(b, vars) + Bytes([Jmp(0)])) && end == |x.code|
    requires x.breaks == s.breaks + sites && sites == SitesB(b, |pre|)
    ensures end >= 4
    ensures AfterClose(AfterPatch(Some(x), end - 4, rel), |s.breaks|, end) ==
            Some(x.(code := pre + (ClosedB(b, vars) + Bytes([Jmp(rel)])), breaks := s.breaks))
  {
    hide *;
    var code' := pre + (EmitB(b, vars) + Bytes([Jmp(rel)]));
    var code'' := pre + (ClosedB(b, vars) + Bytes([Jmp(rel)]));
    LoopPatches(pre, b, vars, sites, end, rel);
    BothPatches(x, s.breaks, sites, end, rel, code', code'');
  }

  lemma LoopPatches(pre: seq<byte>, b: Block, vars: Vars, sites: seq<nat>, end: nat, rel: int)
    requires sites == SitesB(b, |pre|) && end == |pre + (EmitB(b, vars) + Bytes([Jmp(0)]))|
    ensures end >= 4
    ensures Patch(pre + (EmitB(b, vars) + Bytes([Jmp(0)])), end - 4, rel) == pre + (EmitB(b, vars) + Bytes([Jmp(rel)]))
    ensures PatchAll(pre + (EmitB(b, vars) + Bytes([Jmp(rel)])), sites, end) ==
      pre + (ClosedB(b, vars) + Bytes([Jmp(rel)]))
  {
    hide *;
    EmitBSize(b, vars);
    PatchBack(pre, EmitB(b, vars), rel);
    JmpSize(rel);
    ClosePatches(pre, b, vars, Bytes([Jmp(rel)]));
  }

  lemma LoopEnd(x: Snap, pre: seq<byte>, b: Block, vars: Vars)
    requires x.code == pre + (EmitB(b, vars) + Bytes([Jmp(0)]))
    ensures |x.code| == |pre| + SizeB(b) + 5
  {
    hide *;
    EmitBSize(b, vars);
    PatchBack(pre, EmitB(b, vars), 0);
  }

  lemma BothPatches(x: Snap, breaks: seq<nat>, sites: seq<nat>, end: nat, rel: int, code': seq<byte>, code'': seq<byte>)
    requires x.breaks == breaks + sites && end >= 4
    requires Patch(x.code, end - 4, rel) == code' && PatchAll(code', sites, end) == code''
    ensures AfterClose(AfterPatch(Some(x), end - 4, rel), |breaks|, end) == Some(x.(code := code'', breaks := breaks))
  {
    hide Patch, PatchAll;
    CloseIs(x.(code := code'), breaks, sites, end, code'');
  }

  lemma SplitBack(a: seq<nat>, b: seq<nat>)
    ensures (a + b)[|a|..] == b && (a + b)[..|a|] == a
  {
  }

  lemma CloseIs(s: Snap, a: seq<nat>, b: seq<nat>, target: int, code: seq<byte>)
    requires s.breaks == a + b && PatchAll(s.code, b, target) == code
    ensures AfterClose(Some(s), |a|, target) == Some(s.(code := code, breaks := a))
  {
    hide PatchAll;
    SplitBack(a, b);
  }

  lemma LoopParsed(s: Snap)
    requires Within(s) && Head(s.rest) == Some(TLoop)
    ensures AfterS(Some(s)) == LoopSpec(Some(s))
  {
    hide ParseBlock, FinishS, FinishB, Bytes, CloseLoop, AfterEmit;
    AfterEmitNone();
    var s1 := s.(rest := s.rest[1..]);
    BadBlock(s1.rest);
    if ParseBlock(s1.rest).Some? {
      var (b, rest) := ParseBlock(s1.rest).value;
      LoopFinishes(s, s1, b, rest);
    }
  }

  lemma LoopFinishes(s: Snap, s1: Snap, b: Block, rest: seq<Token>)
    requires Within(s) && s1 == s.(rest := s1.rest)
    ensures var n2 := AfterEmit(FinishB(s1, b, rest), Bytes([Jmp(0)]));
            && (n2.None? ==> FinishS(s, Loop(b), rest).None?)
            && (n2.Some? ==>
                  && |n2.value.code| >= 4
                  && FinishS(s, Loop(b), rest) == CloseLoop(n2, |s.code|, |n2.value.code| - 4, None, |s.breaks|))
  {
    hide EmitS, EmitB, ClosedB, Bytes, DeclareB, SizeB, SitesB, PeakB, CountB, PatchAll, Patch, FinishS;
    JmpSize(0);
    EmitBSize(b, s.vars);
    SitesCountB(b, |s.code|);
    FinishSFits(s, Loop(b), rest);
    FinishBFits(s1, b, rest);
    var n2 := AfterEmit(FinishB(s1, b, rest), Bytes([Jmp(0)]));
    if n2.Some? {
      var x := n2.value;
      assert x.code == s.code + (EmitB(b, s.vars) + Bytes([Jmp(0)]));
      LoopEnd(x, s.code, b, s.vars);
      LoopCloses(s, x, s.code, b, s.vars, SitesB(b, |s.code|), |x.code|, |s.code| - |x.code|);
      EmitLoop(b, s.vars);
      FinishSIs(s, Loop(b), rest, x.vars);
    }
  }

  lemma WhileParsed(s: Snap)
    requires Within(s) && Head(s.rest) == Some(TWhile)
    ensures AfterS(Some(s)) == WhileSpec(Some(s))
  {
    hide ParseGuarded, ParseBlock, Parse, FinishS, FinishE, AfterB, GuardedResult, SizeE, SizeB, Bytes, DeclareE;
    hide DeclareB, CloseLoop, AfterEmit;
    var s1 := s.(rest := s.rest[1..]);
    AfterEmitNone();
    AfterBNone();
    if Head(s1.rest) == Some(TBad) {
      BadGuarded(s1.rest);
    } else {
      GuardedParsed(s1);
      if ParseGuarded(s1.rest).Some? {
        var ((c, b), rest) := ParseGuarded(s1.rest).value;
        GuardedCondition(s1, c, b, rest);
        WhileCloses(s, s1, c, b, rest);
      }
    }
  }

  lemma AfterEmitNone()
    ensures forall bs :: AfterEmit(None, bs) == None
  {
  }

  lemma WhileCloses(s: Snap, s1: Snap, c: Expr, b: Block, rest: seq<Token>)
    requires Within(s) && s1 == s.(rest := s1.rest)
    ensures var n2 := AfterEmit(GuardedResult(s1, c, b, rest), Bytes([Jmp(0)]));
            && (n2.None? ==> FinishS(s, While(c, b), rest).None?)
            && (n2.Some? ==>
                  && |n2.value.code| >= 4
                  && FinishS(s, While(c, b), rest) ==
                     CloseLoop(n2, |s.code|, |n2.value.code| - 4, Some(|s.code| + SizeE(c) + 5), |s.breaks|))
  {
    hide EmitE, EmitB, EmitS, ClosedB, Bytes, DeclareE, DeclareB, SizeE, SizeB, SitesB, PeakB, CountB, PatchAll, Patch;
    hide GuardedBytes, FinishS, CloseLoop;
    JmpSize(0);
    GuardedBytesSize(c, b, s.vars, 0);
    FinishSFits(s, While(c, b), rest);
    var n2 := AfterEmit(GuardedResult(s1, c, b, rest), Bytes([Jmp(0)]));
    if n2.None? {
      if GuardedResult(s1, c, b, rest).None? && Head(rest) != Some(TBad) {
        GuardedFails(s1, c, b, rest);
      }
    } else {
      WhilePatches(s, n2.value, c, b);
      EmitSSize(While(c, b), s.vars);
      FinishSIs(s, While(c, b), rest, n2.value.vars);
    }
  }

  lemma FinishSIs(s: Snap, st: Stmt, rest: seq<Token>, vars: Vars)
    requires FitsS(s, st, rest) && vars == DeclareS(s.vars, st) && SitesS(st, |s.code|) == []
    ensures FinishS(s, st, rest) == Some(Snap(rest, vars, s.code + EmitS(st, s.vars), s.breaks))
  {
    hide EmitS, DeclareS, SizeS, PeakS;
    EmitSSize(st, s.vars);
    assert s.breaks + [] == s.breaks;
  }

  /** The three patches of `while`, in the order the compiler makes them. */
  lemma WhilePatches(s: Snap, x: Snap, c: Expr, b: Block)
    requires x.code == s.code + GuardedBytes(c, b, s.vars, 0) + Bytes([Jmp(0)])
    requires x.breaks == s.breaks + SitesB(b, |s.code| + SizeE(c) + 9)
    ensures |x.code| >= 4
    ensures CloseLoop(Some(x), |s.code|, |x.code| - 4, Some(|s.code| + SizeE(c) + 5), |s.breaks|) ==
            Some(x.(code := s.code + EmitS(While(c, b), s.vars), breaks := s.breaks))
  {
    hide EmitE, EmitB, EmitS, ClosedB, Bytes, DeclareE, SizeE, SizeB, SitesB, PatchAll, Patch, GuardedBytes;
    var end := |x.code|;
    var site := |s.code| + SizeE(c) + 5;
    JmpSize(0);
    GuardedBytesSize(c, b, s.vars, 0);
    GuardedBytesSize(c, b, s.vars, SizeB(b) + 5);
    var x1 := x.(code := s.code + GuardedBytes(c, b, s.vars, SizeB(b) + 5) + Bytes([Jmp(0)]));
    PatchesCommute(s, c, b, x, x1);
    var pre := s.code + (EmitE(c, s.vars) + Bytes([TestRaxRax, Je(SizeB(b) + 5)]));
    EmitESize(c, s.vars);
    BytesTest(SizeB(b) + 5);
    GuardedSplit(c, b, s.vars, SizeB(b) + 5);
    assert x1.code == pre + (EmitB(b, DeclareE(s.vars, c)) + Bytes([Jmp(0)]));
    LoopEnd(x1, pre, b, DeclareE(s.vars, c));
    LoopCloses(s, x1, pre, b, DeclareE(s.vars, c), SitesB(b, |pre|), |x1.code|, |s.code| - |x1.code|);
    EmitWhile(c, b, s.vars);
    WhileSize(c, b);
    var j := Bytes([Jmp(|s.code| - end)]);
    var cb := ClosedB(b, DeclareE(s.vars, c));
    assert pre + (cb + j) == s.code + (EmitE(c, s.vars) + (Bytes([TestRaxRax, Je(SizeB(b) + 5)]) + (cb + j)));
  }

  lemma WhileSize(c: Expr, b: Block)
    ensures SizeS(While(c, b)) == SizeE(c) + 9 + SizeB(b) + 5
  {
  }

  lemma GuardedSplit(c: Expr, b: Block, vars: Vars, rel: int)
    ensures GuardedBytes(c, b, vars, rel) ==
      (EmitE(c, vars) + Bytes([TestRaxRax, Je(rel)])) + EmitB(b, DeclareE(vars, c))
  {
    hide EmitE, EmitB, Bytes;
  }

  /** Patching the jump back before or after the guard makes no difference. */
  lemma PatchesCommute(s: Snap, c: Expr, b: Block, x: Snap, x1: Snap)
    requires x.code == s.code + GuardedBytes(c, b, s.vars, 0) + Bytes([Jmp(0)])
    requires x1 == x.(code := s.code + GuardedBytes(c, b, s.vars, SizeB(b) + 5) + Bytes([Jmp(0)]))
    ensures |x.code| == |x1.code| == |s.code| + SizeE(c) + 9 + SizeB(b) + 5
    ensures var end := |x.code|; var site := |s.code| + SizeE(c) + 5;
            AfterPatch(AfterPatch(Some(x), end - 4, |s.code| - end), site, end - (site + 4)) ==
            AfterPatch(Some(x1), end - 4, |s.code| - end)
  {
    hide EmitE, EmitB, Bytes, DeclareE, SizeE, SizeB, Patch, GuardedBytes;
    var end := |x.code|;
    var g0, g1 := GuardedBytes(c, b, s.vars, 0), GuardedBytes(c, b, s.vars, SizeB(b) + 5);
    var j0, j1 := Bytes([Jmp(0)]), Bytes([Jmp(|s.code| - end)]);
    JmpSize(0);
    GuardedBytesSize(c, b, s.vars, 0);
    GuardedBytesSize(c, b, s.vars, SizeB(b) + 5);
    PatchJmp(s.code + g0, 0, [], |s.code| - end);
    PatchJmp(s.code + g1, 0, [], |s.code| - end);
    NoPost(s.code + g0, j0);
    NoPost(s.code + g0, j1);
    NoPost(s.code + g1, j0);
    NoPost(s.code + g1, j1);
    PatchGuarded(s.code, c, b, s.vars, j1, SizeB(b) + 5);
    assert s.code + g0 + j1 == s.code + (g0 + j1) && s.code + g1 + j1 == s.code + (g1 + j1);
  }

  // ----- Atoms -----

  function AtomSpec(n: Now): Now
    requires n.Some?
  {
    var s := n.value;
    match Head(s.rest)
    case Some(TNum(v)) => AfterEmit(AfterNext(n), Bytes([MovRaxImm(v)]))
    case Some(TIdent(x)) => AfterEmit(AfterNext(AfterDeclare(n, x)), Bytes([LoadRax(Disp(Slot(s.vars, x)))]))
    case Some(TLParen) => AfterEat(AfterE(AfterNext(n), 0), TRParen)
    case Some(TMinus) => AfterEmit(AfterE(AfterNext(n), 3), Bytes([NegRax]))
    case _ => None
  }

  /** The slot `x` has, or gets. */
  function Slot(vars: Vars, x: Name): nat {
    DeclareGrows(vars, x);
    SlotOf(Declare(vars, x), x)
  }

  lemma AtomParsed(s: Snap)
    requires Within(s)
    ensures AfterE(Some(s), 3) == AtomSpec(Some(s))
  {
    hide Bytes, EmitE, Parse, Seal, DeclareE;
    assert Parse(s.rest, 3) == ParseAtom(s.rest) by { ParseIsAtom(s.rest); }
    match Head(s.rest)
    case Some(TNum(v)) => FinishNum(s, v, s.rest[1..]);
    case Some(TIdent(x)) => FinishVar(s, x, s.rest[1..]);
    case Some(TLParen) => FinishParen(s);
    case Some(TMinus) => FinishNeg(s);
    case _ =>
  }

  lemma ParseIsAtom(ts: seq<Token>)
    ensures Parse(ts, 3) == ParseAtom(ts)
  {
  }

  lemma FinishNum(s: Snap, v: u64, rest: seq<Token>)
    ensures FinishE(s, Num(v), rest) == AfterEmit(Seal(rest, s.vars, s.code, s.breaks), Bytes([MovRaxImm(v)]))
  {
    hide Bytes;
    EmitESize(Num(v), s.vars);
  }

  lemma FinishVar(s: Snap, x: Name, rest: seq<Token>)
    requires Within(s) && s.rest != [] && rest == s.rest[1..]
    ensures FinishE(s, Var(x), rest) ==
      AfterEmit(AfterNext(AfterDeclare(Some(s), x)), Bytes([LoadRax(Disp(Slot(s.vars, x)))]))
  {
    hide Bytes, SlotOf;
    DeclareGrows(s.vars, x);
    EmitESize(Var(x), s.vars);
  }

  lemma FinishParen(s: Snap)
    requires Within(s) && Head(s.rest) == Some(TLParen)
    ensures AfterEat(AfterE(AfterNext(Some(s)), 0), TRParen) ==
            match ParseAtom(s.rest)
            case None => None
            case Some((e, rest)) => FinishE(s, e, rest)
  {
    hide Bytes, Parse, DeclareE, CodeE;
    if Head(s.rest[1..]) == Some(TBad) {
      BadHead(s.rest[1..], 0);
    } else {
      match Parse(s.rest[1..], 0)
      case None =>
      case Some((e, rest)) => ParenSame(e, s.vars);
    }
  }

  lemma ParenSame(e: Expr, vars: Vars)
    ensures DeclareE(vars, Paren(e)) == DeclareE(vars, e) && EmitE(Paren(e), vars) == EmitE(e, vars)
  {
  }

  lemma FinishNeg(s: Snap)
    requires Within(s) && Head(s.rest) == Some(TMinus)
    ensures AfterEmit(AfterE(AfterNext(Some(s)), 3), Bytes([NegRax])) ==
            match ParseAtom(s.rest)
            case None => None
            case Some((e, rest)) => FinishE(s, e, rest)
  {
    hide Bytes, Parse, DeclareE, EmitE;
    ParseIsAtom(s.rest[1..]);
    if Head(s.rest[1..]) == Some(TBad) {
      BadHead(s.rest[1..], 3);
    } else {
      match Parse(s.rest[1..], 3)
      case None =>
      case Some((e, rest)) =>
        EmitNeg(e, s.vars);
        EmitESize(e, s.vars);
        EmitESize(Neg(e), s.vars);
        assert s.code + EmitE(Neg(e), s.vars) == s.code + EmitE(e, s.vars) + Bytes([NegRax]);
    }
  }

  lemma EmitNeg(e: Expr, vars: Vars)
    ensures DeclareE(vars, Neg(e)) == DeclareE(vars, e) && EmitE(Neg(e), vars) == EmitE(e, vars) + Bytes([NegRax])
  {
    hide Bytes, CodeE;
    DeclareEGrows(vars, e);
    DeclareEGrows(vars, Neg(e));
    assert CodeE(Neg(e), DeclareE(vars, e)) ==
      CodeE(e, DeclareE(vars, e)) + [NegRax] by { CodeNeg(e, DeclareE(vars, e)); }
    BytesConcat(CodeE(e, DeclareE(vars, e)), [NegRax]);
  }

  lemma CodeNeg(e: Expr, vars: Vars)
    requires Declares(vars, Names(e))
    ensures CodeE(Neg(e), vars) == CodeE(e, vars) + [NegRax]
  {
  }

  // ----- Simple statements -----

  function ExprSemiSpec(n: Now): Now { AfterEat(AfterE(n, 0), TSemi) }

  lemma ExprSemiParsed(s: Snap)
    requires Within(s)
    ensures ExprSemiSpec(Some(s)) ==
            match ParseExprSemi(s.rest)
            case None => None
            case Some((e, rest)) => FinishE(s, e, rest)
  {
    hide Parse, EmitE, DeclareE;
    ParseExprIs(s.rest);
  }

  function PrintSpec(n: Now, nl: bool): Now { AfterEmit(ExprSemiSpec(AfterNext(n)), Bytes(PrintCode(nl))) }

  lemma PrintParsed(s: Snap, nl: bool)
    requires Within(s) && Head(s.rest) == Some(if nl then TPrintln else TPrint)
    ensures AfterS(Some(s)) == PrintSpec(Some(s), nl)
  {
    hide ParseExprSemi, EmitE, EmitS, DeclareE, Bytes, ExprSemiSpec, SizeE;
    var s1 := s.(rest := s.rest[1..]);
    if Head(s1.rest) == Some(TBad) {
      BadHead(s1.rest, 0);
      ParseExprSemiBad(s1.rest);
      ExprSemiNone();
    } else {
      ExprSemiParsed(s1);
      if ParseExprSemi(s1.rest).Some? {
        var (e, rest) := ParseExprSemi(s1.rest).value;
        EmitPrint(e, nl, s.vars);
        EmitSSize(Stmt.Print(e, nl), s.vars);
        EmitESize(e, s.vars);
        assert s.code + EmitS(Stmt.Print(e, nl), s.vars) == s.code + EmitE(e, s.vars) + Bytes(PrintCode(nl));
        assert s.breaks + [] == s.breaks;
      }
    }
  }

  lemma ExprSemiNone()
    ensures ExprSemiSpec(None) == None
  {
  }

  lemma ParseExprSemiBad(ts: seq<Token>)
    requires Head(ts) == Some(TBad)
    ensures ParseExprSemi(ts).None?
  {
    BadHead(ts, 0);
  }

  lemma EmitPrint(e: Expr, nl: bool, vars: Vars)
    ensures EmitS(Stmt.Print(e, nl), vars) == EmitE(e, vars) + Bytes(PrintCode(nl))
  {
    hide Bytes, CodeE, PrintCode;
    DeclareEGrows(vars, e);
    DeclareSGrows(vars, Stmt.Print(e, nl));
    BytesConcat(CodeE(e, DeclareE(vars, e)), PrintCode(nl));
  }

  function LetSpec(n: Now): Now {
    var n1 := AfterNext(n);
    if n1.None? || n1.value.rest == [] || !n1.value.rest[0].TIdent? then None
    else
      var x := n1.value.rest[0].name;
      var n2 := AfterEat(AfterNext(AfterDeclare(n1, x)), TEq);
      AfterEmit(ExprSemiSpec(n2), Bytes([StoreRax(Disp(Slot(n1.value.vars, x)))]))
  }

  lemma LetParsed(s: Snap)
    requires Within(s) && Head(s.rest) == Some(TLet)
    ensures AfterS(Some(s)) == LetSpec(Some(s))
  {
    hide ParseExprSemi, EmitE, EmitS, DeclareE, Bytes, ExprSemiSpec, SizeE, Slot, FinishS;
    ExprSemiNone();
    var ts := s.rest;
    if |ts| >= 3 && ts[1].TIdent? && ts[2] == TEq {
      var x := ts[1].name;
      assert ts[1..][1..] == ts[2..] && ts[2..][1..] == ts[3..];
      LetFinish(s, x, ts[3..]);
    } else if |ts| >= 2 && ts[1].TIdent? {
      assert ts[1..][1..] == ts[2..];
    }
  }

  lemma LetFinish(s: Snap, x: Name, ts: seq<Token>)
    requires Within(s)
    ensures AfterEmit(ExprSemiSpec(Seal(ts, Declare(s.vars, x), s.code, s.breaks)),
      Bytes([StoreRax(Disp(Slot(s.vars, x)))])) ==
            match ParseExprSemi(ts)
            case None => None
            case Some((e, rest)) => FinishS(s, Let(x, e), rest)
  {
    hide ParseExprSemi, EmitE, EmitS, DeclareE, Bytes, ExprSemiSpec, SizeE, Slot, Declare;
    ExprSemiNone();
    if Head(ts) == Some(TBad) {
      ParseExprSemiBad(ts);
    } else {
      var n := Seal(ts, Declare(s.vars, x), s.code, s.breaks);
      if n.Some? { ExprSemiParsed(n.value); }
      if ParseExprSemi(ts).Some? {
        var (e, rest) := ParseExprSemi(ts).value;
        EmitLet(x, e, s.vars);
        EmitSSize(Let(x, e), s.vars);
        EmitESize(e, Declare(s.vars, x));
        DeclareEGrows(Declare(s.vars, x), e);
        var st := Bytes([StoreRax(Disp(Slot(s.vars, x)))]);
        assert s.code + EmitS(Let(x, e), s.vars) == s.code + EmitE(e, Declare(s.vars, x)) + st;
        assert s.breaks + [] == s.breaks;
      }
    }
  }

  lemma EmitLet(x: Name, e: Expr, vars: Vars)
    ensures EmitS(Let(x, e), vars) == EmitE(e, Declare(vars, x)) + Bytes([StoreRax(Disp(Slot(vars, x)))])
  {
    hide Bytes, CodeE, SlotOf, Declare;
    var vx := Declare(vars, x);
    var ve := DeclareE(vx, e);
    DeclareGrows(vars, x);
    DeclareEGrows(vx, e);
    DeclareSGrows(vars, Let(x, e));
    SlotStable(vx, ve, x);
    BytesConcat(CodeE(e, ve), [StoreRax(Disp(Slot(vars, x)))]);
  }

  /** A jump with its site recorded. */
  function AfterBreak(n: Now): Now {
    match n
    case None => None
    case Some(s) => Seal(s.rest, s.vars, s.code + Bytes([Jmp(0)]), s.breaks + [|s.code| + 1])
  }

  lemma BreakRecorded(n: Now)
    ensures AfterBreak(n) ==
            match AfterEmit(n, Bytes([Jmp(0)]))
            case None => None
            case Some(s) => Seal(s.rest, s.vars, s.code, s.breaks + [|n.value.code| + 1])
  {
    hide Bytes;
  }

  lemma BreakParsed(s: Snap)
    requires Within(s) && Head(s.rest) == Some(TBreak)
    ensures AfterS(Some(s)) == AfterBreak(AfterEat(AfterNext(Some(s)), TSemi))
  {
    hide Bytes, EmitS;
    JmpSize(0);
    EmitBreak(s.vars);
    if |s.rest| >= 2 && s.rest[1] == TSemi {
      assert s.rest[1..][1..] == s.rest[2..];
    }
  }

  lemma EmitBreak(vars: Vars)
    ensures EmitS(Break, vars) == Bytes([Jmp(0)])
  {
  }

  lemma EmptyParsed(s: Snap)
    requires Within(s) && Head(s.rest) == Some(TSemi)
    ensures AfterS(Some(s)) == AfterNext(Some(s))
  {
    assert s.code + [] == s.code && s.breaks + [] == s.breaks;
  }

  // ----- Emitting in pieces -----

  lemma EmitTwice(n: Now, a: seq<byte>, b: seq<byte>)
    ensures AfterEmit(AfterEmit(n, a), b) == AfterEmit(n, a + b)
  {
    if n.Some? {
      assert n.value.code + (a + b) == n.value.code + a + b;
    }
  }

  lemma EmitInstrs(n: Now, a: seq<Instr>, b: seq<Instr>)
    ensures AfterEmit(AfterEmit(n, Bytes(a)), Bytes(b)) == AfterEmit(n, Bytes(a + b))
  {
    hide Bytes, AfterEmit;
    BytesConcat(a, b);
    EmitTwice(n, Bytes(a), Bytes(b));
  }

  /** The end of a binary operation, as the compiler emits it. */
  lemma EmitOperator(n: Now, op: Op)
    ensures AfterEmit(AfterEmit(AfterEmit(n, Bytes([MovRcxRax])), Bytes([PopRax])), Bytes(OpCode(op))) ==
            AfterEmit(n, Bytes([MovRcxRax, PopRax] + OpCode(op)))
  {
    hide Bytes, AfterEmit, OpCode;
    EmitInstrs(n, [MovRcxRax], [PopRax]);
    assert [MovRcxRax] + [PopRax] == [MovRcxRax, PopRax];
    EmitInstrs(n, [MovRcxRax, PopRax], OpCode(op));
  }

  /** The bytes of the division with jump distances `a` and `b`. */
  function DivBytes(a: int, b: int): seq<byte> {
    [0x48, 0x85, 0xC9, 0x0F, 0x84] + Le32(a) + ([0x31, 0xD2, 0x48, 0xF7, 0xF1, 0xE9] + Le32(b) + [0x31, 0xC0])
  }

  lemma DivBytesAre()
    ensures DivBytes(10, 2) == Bytes(OpCode(Div))
  {
    hide Le32, Encode;
    var s := OpCode(Div);
    assert s[1..][1..] == s[2..] && s[2..][1..] == s[3..] && s[3..][1..] == s[4..] && s[4..][1..] == s[5..] &&
      s[5..][1..] == [];
    assert Bytes(s) == Encode(s[0]) + Bytes(s[1..]);
    assert Bytes(s[1..]) == Encode(s[1]) + Bytes(s[2..]);
    assert Bytes(s[2..]) == Encode(s[2]) + Bytes(s[3..]);
    assert Bytes(s[3..]) == Encode(s[3]) + Bytes(s[4..]);
    assert Bytes(s[4..]) == Encode(s[4]) + Bytes(s[5..]);
    assert Bytes(s[5..]) == Encode(s[5]) + [];
    DivEncodings();
  }

  lemma DivEncodings()
    ensures Encode(TestRcxRcx) == [0x48, 0x85, 0xC9] && Encode(Je(10)) == [0x0F, 0x84] + Le32(10)
    ensures Encode(XorEdxEdx) == [0x31, 0xD2] && Encode(DivRcx) == [0x48, 0xF7, 0xF1]
    ensures Encode(Jmp(2)) == [0xE9] + Le32(2) && Encode(XorEaxEax) == [0x31, 0xC0]
  {
  }

  /** The division, emitted piece by piece with open jumps. */
  lemma DivEmitted(n: Now)
    ensures AfterEmit(AfterEmit(AfterEmit(AfterEmit(AfterEmit(AfterEmit(AfterEmit(AfterEmit(n,
              [0x48, 0x85, 0xC9]), [0x0F, 0x84]), Le32(0)), [0x31, 0xD2]), [0x48, 0xF7, 0xF1]), [0xE9]), Le32(0)),
                [0x31, 0xC0]) ==
            AfterEmit(n, DivBytes(0, 0))
  {
    hide AfterEmit, Le32;
    var a := [0x48, 0x85, 0xC9] + [0x0F, 0x84];
    EmitTwice(n, [0x48, 0x85, 0xC9], [0x0F, 0x84]);
    EmitTwice(n, a, Le32(0));
    EmitTwice(n, a + Le32(0), [0x31, 0xD2]);
    EmitTwice(n, a + Le32(0) + [0x31, 0xD2], [0x48, 0xF7, 0xF1]);
    EmitTwice(n, a + Le32(0) + [0x31, 0xD2] + [0x48, 0xF7, 0xF1], [0xE9]);
    EmitTwice(n, a + Le32(0) + [0x31, 0xD2] + [0x48, 0xF7, 0xF1] + [0xE9], Le32(0));
    EmitTwice(n, a + Le32(0) + [0x31, 0xD2] + [0x48, 0xF7, 0xF1] + [0xE9] + Le32(0), [0x31, 0xC0]);
    assert a + Le32(0) + [0x31, 0xD2] + [0x48, 0xF7, 0xF1] + [0xE9] + Le32(0) + [0x31, 0xC0] == DivBytes(0, 0);
  }

  lemma DivPatched(n: Now, len: nat)
    requires n.Some? ==> |n.value.code| == len
    ensures AfterPatch(AfterPatch(AfterEmit(n, DivBytes(0, 0)), len + 5, 10), len + 15, 2) ==
      AfterEmit(n, Bytes(OpCode(Div)))
  {
    hide Bytes, Patch, Le32;
    if n.Some? {
      DivBytesAre();
      var pre := n.value.code;
      var mid0, mid2 := [0x31, 0xD2, 0x48, 0xF7, 0xF1, 0xE9] + Le32(0) + [0x31, 0xC0],
        [0x31, 0xD2, 0x48, 0xF7, 0xF1, 0xE9] + Le32(2) + [0x31, 0xC0];
      PatchMiddle(pre, [0x48, 0x85, 0xC9, 0x0F, 0x84], 0, mid0, 10);
      var head := [0x48, 0x85, 0xC9, 0x0F, 0x84] + Le32(10);
      PatchMiddle(pre + head, [0x31, 0xD2, 0x48, 0xF7, 0xF1, 0xE9], 0, [0x31, 0xC0], 2);
      assert pre + head + mid0 == pre + (head + mid0) && pre + head + mid2 == pre + (head + mid2);
    }
  }

  lemma PatchNone(site: nat, rel: int)
    ensures AfterPatch(None, site, rel) == None
  {
  }

  lemma DivSame(n: Now)
    ensures AfterEmit(n, DivBytes(0, 0)).None? <==> AfterEmit(n, Bytes(OpCode(Div))).None?
  {
    hide Bytes, Le32;
    DivBytesAre();
  }

  // ----- Operator loops -----

  /** In the operator loop of level `p` that started in state `n0`: the state is `n` and the
      expression read so far is `e`. */
  ghost predicate InLoop(n0: Now, n: Now, e: Expr, p: nat)
    requires p < 3
  {
    && (n0.None? ==> n.None?)
    && (n0.Some? && n.None? ==> AfterE(n0, p).None?)
    && (n0.Some? && n.Some? ==>
          FinishE(n0.value, e, n.value.rest) == n && FinishTail(n0.value, e, n.value.rest, p) == AfterE(n0, p))
  }

  ghost function FirstOperand(n0: Now, p: nat): Expr
    requires p < 3
  {
    if n0.Some? && Parse(n0.value.rest, p + 1).Some? then Parse(n0.value.rest, p + 1).value.0 else Num(0)
  }

  lemma LoopStart(n0: Now, n: Now, p: nat)
    requires p < 3 && n == AfterE(n0, p + 1)
    ensures InLoop(n0, n, FirstOperand(n0, p), p)
  {
    hide EmitE, DeclareE, SizeE, ParseAtom;
    if n0.Some? && Parse(n0.value.rest, p + 1).Some? {
      var (e, rest) := Parse(n0.value.rest, p + 1).value;
      EmitESize(e, n0.value.vars);
      if n.None? {
        if Head(rest) == Some(TBad) {
          assert ParseTail(e, rest, p) == Some((e, rest));
        } else if |DeclareE(n0.value.vars, e)| > MAX_LOCALS || |n0.value.code| + SizeE(e) > MAX_CODE {
          FinishOverflow(n0.value, e, rest, p);
        } else {
          assert |n0.value.breaks| > MAX_BREAKS;
        }
      }
    }
  }

  lemma LoopTurn(n0: Now, n1: Now, n: Now, e: Expr, p: nat, op: Op) returns (e': Expr)
    requires p < 3 && InLoop(n0, n1, e, p) && (n1.Some? ==> OpAt(n1.value.rest, p) == Some(op))
    requires n == AfterEmit(AfterEmit(AfterEmit(AfterE(AfterEmit(AfterNext(n1), Bytes([PushRax])), p + 1),
                                                Bytes([MovRcxRax])), Bytes([PopRax])), Bytes(OpCode(op)))
    ensures InLoop(n0, n, e', p)
  {
    hide Bytes, OpCode, EmitE, Parse, ParseTail, FinishE, FinishTail;
    EmitOperator(AfterE(AfterEmit(AfterNext(n1), Bytes([PushRax])), p + 1), op);
    e' := e;
    if n0.Some? && n1.Some? {
      var r := TailStep(n0.value, e, n1.value, p, op);
      e' := Bin(op, e, r);
    }
  }

  lemma LoopEnds(n0: Now, n: Now, e: Expr, p: nat)
    requires p < 3 && InLoop(n0, n, e, p) && (n.Some? ==> OpAt(n.value.rest, p).None?)
    ensures n == AfterE(n0, p)
  {
    hide FinishE, Parse;
  }

  /** A failed compilation stays failed. */
  lemma NoneStays()
    ensures AfterNext(None) == None && forall bs :: AfterEmit(None, bs) == None
    ensures AfterE(None, 0) == None && forall t :: AfterEat(None, t) == None
  {
  }

  lemma PatchAllNone(code: seq<byte>, target: int)
    ensures PatchAll(code, [], target) == code
  {
  }

  lemma PatchAllSnoc(code: seq<byte>, sites: seq<nat>, site: nat, target: int)
    ensures PatchAll(code, sites + [site], target) == Patch(PatchAll(code, sites, target), site, target - (site + 4))
  {
    hide Patch;
    PatchAllConcat(code, sites, [site], target);
    var c := PatchAll(code, sites, target);
    assert [site][1..] == [];
    assert PatchAll(c, [site], target) == PatchAll(Patch(c, site, target - (site + 4)), [], target);
  }

  lemma BytesJmp(rel: int)
    ensures Bytes([Jmp(rel)]) == [0xE9] + Le32(rel)
  {
    BytesOne(Jmp(rel));
  }

  /** The print call, emitted piece by piece. */
  lemma PrintEmitted(n: Now, nl: bool)
    ensures AfterEmit(AfterEmit(AfterEmit(AfterEmit(n, [0x48, 0x89, 0xC7]),
              if nl then [0xBE, 0x01, 0x00, 0x00, 0x00] else [0x31, 0xF6]), [0xB8, 0x20, 0x00, 0x00, 0x00]),
                [0x0F, 0x05]) ==
            AfterEmit(n, Bytes(PrintCode(nl)))
  {
    hide AfterEmit, Bytes;
    var i0, i1, i2, i3 := MovRdiRax, if nl then MovEsi1 else XorEsiEsi, MovEaxImm(32), Syscall;
    BytesOne(i0);
    BytesOne(i1);
    BytesOne(i2);
    BytesOne(i3);
    EmitInstrs(n, [i0], [i1]);
    assert [i0] + [i1] == [i0, i1];
    EmitInstrs(n, [i0, i1], [i2]);
    assert [i0, i1] + [i2] == [i0, i1, i2];
    EmitInstrs(n, [i0, i1, i2], [i3]);
    assert [i0, i1, i2] + [i3] == PrintCode(nl);
  }
}
