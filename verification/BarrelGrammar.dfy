/** The parser and the printer of BarrelSyntax are inverse to each other: a token
    sequence parses to a tree exactly when it is the printed form of that tree. */
module BarrelGrammar {
  import opened Words
  import opened BarrelSyntax

  /** No operator of precedence `p` or higher at the front. */
  predicate Stops(ts: seq<Token>, p: int) {
    forall q :: p <= q < 3 ==> OpAt(ts, q).None?
  }

  // ----- Parsing what was printed -----

  /** Parsing at a level no higher than `e`'s reads `e` and goes on with the operators of that level. */
  lemma {:induction false} ParsePrinted(e: Expr, rest: seq<Token>, p: nat)
    requires Grammatical(e) && p <= 3 && p <= Level(e) && Stops(rest, p + 1)
    ensures p < 3 ==> Parse(Tokens(e) + rest, p) == ParseTail(e, rest, p)
    ensures p == 3 ==> Parse(Tokens(e) + rest, p) == Some((e, rest))
    decreases e, 4 - p
  {
    if p < 3 && Level(e) > p {
      ParsePrinted(e, rest, p + 1);
      if p < 2 { assert OpAt(rest, p + 1).None?; }
    } else if p == 3 {
      AtomPrinted(e, rest);
    } else {
      BinPrinted(e.op, e.l, e.r, rest, p);
    }
  }

  lemma {:induction false} BinPrinted(op: Op, l: Expr, r: Expr, rest: seq<Token>, p: nat)
    requires Grammatical(Bin(op, l, r)) && p == Prec(op) && Stops(rest, p + 1)
    ensures Parse(Tokens(Bin(op, l, r)) + rest, p) == ParseTail(Bin(op, l, r), rest, p)
    decreases Bin(op, l, r), 0
  {
    var ts := [OpToken(op)] + Tokens(r) + rest;
    assert Tokens(Bin(op, l, r)) + rest == Tokens(l) + ts;
    assert TokenOp(OpToken(op)) == Some(op);
    assert OpAt(ts, p) == Some(op);
    assert Stops(ts, p + 1);
    ParsePrinted(l, ts, p);
    assert ts[1..] == Tokens(r) + rest;
    OperandPrinted(r, rest, p + 1);
  }

  /** An operand of the next level is read up to the operator that ends it. */
  lemma {:induction false} OperandPrinted(r: Expr, rest: seq<Token>, p: nat)
    requires Grammatical(r) && 0 < p <= 3 && p <= Level(r) && Stops(rest, p)
    ensures Parse(Tokens(r) + rest, p) == Some((r, rest))
    decreases r, 5
  {
    ParsePrinted(r, rest, p);
    if p < 3 { assert OpAt(rest, p).None?; }
  }

  lemma {:induction false} AtomPrinted(e: Expr, rest: seq<Token>)
    requires Grammatical(e) && Level(e) == 3
    ensures ParseAtom(Tokens(e) + rest) == Some((e, rest))
    decreases e, 0
  {
    var ts := Tokens(e) + rest;
    match e
    case Num(n) => assert ts[1..] == rest;
    case Var(x) => assert ts[1..] == rest;
    case Paren(i) =>
      assert ts[1..] == Tokens(i) + ([TRParen] + rest);
      var r := [TRParen] + rest;
      ParsePrinted(i, r, 0);
      assert OpAt(r, 0).None?;
      assert r[1..] == rest;
    case Neg(a) =>
      assert ts[1..] == Tokens(a) + rest;
      AtomPrinted(a, rest);
  }

  /** A token that ends an expression. */
  predicate Ends(rest: seq<Token>) { Stops(rest, 0) }

  lemma ExprPrinted(e: Expr, rest: seq<Token>)
    requires Grammatical(e) && Ends(rest)
    ensures ParseExpr(Tokens(e) + rest) == Some((e, rest))
  {
    ParsePrinted(e, rest, 0);
    assert OpAt(rest, 0).None?;
  }

  lemma ExprSemiPrinted(e: Expr, rest: seq<Token>)
    requires Grammatical(e)
    ensures ParseExprSemi(Tokens(e) + [TSemi] + rest) == Some((e, rest))
  {
    var r := [TSemi] + rest;
    assert Tokens(e) + [TSemi] + rest == Tokens(e) + r;
    ExprPrinted(e, r);
    assert r[1..] == rest;
  }

  /** Dangling `else`: an `if` without one must not be followed by one. */
  lemma {:induction false} StmtPrinted(s: Stmt, rest: seq<Token>)
    requires GrammaticalS(s) && Head(rest) != Some(TElse)
    ensures ParseStmt(TokensS(s) + rest) == Some((s, rest))
    decreases s, 1
  {
    hide ParseStmt, TokensS, ParseBlock, ParseGuarded, ParseExprSemi, Grammatical, GrammaticalB;
    match s
    case Empty => PlainPrinted(s, rest);
    case Break => PlainPrinted(s, rest);
    case Let(x, e) =>
      ExprSemiPrinted(e, rest);
      LetPrinted(x, e, rest);
    case Print(e, nl) =>
      ExprSemiPrinted(e, rest);
      PrintPrinted(e, nl, rest);
    case If(c, t) =>
      GuardedPrinted(c, t, rest);
      IfPrinted(c, t, rest);
    case IfElse(c, t, e) => IfElsePrinted(c, t, e, rest);
    case While(c, b) =>
      GuardedPrinted(c, b, rest);
      WhilePrinted(c, b, rest);
    case Loop(b) =>
      BlockPrinted(b, rest);
      LoopPrinted(b, rest);
  }

  lemma PlainPrinted(s: Stmt, rest: seq<Token>)
    requires s.Empty? || s.Break?
    ensures ParseStmt(TokensS(s) + rest) == Some((s, rest))
  {
    hide ParseBlock, ParseGuarded, ParseExprSemi;
    var ts := TokensS(s) + rest;
    if s.Empty? { assert ts[1..] == rest; } else { assert ts[2..] == rest; }
  }

  lemma LetPrinted(x: Name, e: Expr, rest: seq<Token>)
    requires ParseExprSemi(Tokens(e) + [TSemi] + rest) == Some((e, rest))
    ensures ParseStmt(TokensS(Let(x, e)) + rest) == Some((Let(x, e), rest))
  {
    hide ParseBlock, ParseGuarded, ParseExprSemi, Tokens;
    assert (TokensS(Let(x, e)) + rest)[3..] == Tokens(e) + [TSemi] + rest;
  }

  lemma PrintPrinted(e: Expr, nl: bool, rest: seq<Token>)
    requires ParseExprSemi(Tokens(e) + [TSemi] + rest) == Some((e, rest))
    ensures ParseStmt(TokensS(Print(e, nl)) + rest) == Some((Print(e, nl), rest))
  {
    hide ParseBlock, ParseGuarded, ParseExprSemi, Tokens;
    assert (TokensS(Print(e, nl)) + rest)[1..] == Tokens(e) + [TSemi] + rest;
  }

  lemma IfPrinted(c: Expr, t: Block, rest: seq<Token>)
    requires ParseGuarded(Tokens(c) + (Braced(t) + rest)) == Some(((c, t), rest)) && Head(rest) != Some(TElse)
    ensures ParseStmt(TokensS(If(c, t)) + rest) == Some((If(c, t), rest))
  {
    hide ParseBlock, ParseGuarded, ParseExprSemi, Tokens, Braced;
    assert (TokensS(If(c, t)) + rest)[1..] == Tokens(c) + (Braced(t) + rest);
  }

  lemma WhilePrinted(c: Expr, b: Block, rest: seq<Token>)
    requires ParseGuarded(Tokens(c) + (Braced(b) + rest)) == Some(((c, b), rest))
    ensures ParseStmt(TokensS(While(c, b)) + rest) == Some((While(c, b), rest))
  {
    hide ParseBlock, ParseGuarded, ParseExprSemi, Tokens, Braced;
    assert (TokensS(While(c, b)) + rest)[1..] == Tokens(c) + (Braced(b) + rest);
  }

  lemma LoopPrinted(b: Block, rest: seq<Token>)
    requires ParseBlock(Braced(b) + rest) == Some((b, rest))
    ensures ParseStmt(TokensS(Loop(b)) + rest) == Some((Loop(b), rest))
  {
    hide ParseBlock, ParseGuarded, ParseExprSemi, Braced;
    assert (TokensS(Loop(b)) + rest)[1..] == Braced(b) + rest;
  }

  lemma {:induction false} IfElsePrinted(c: Expr, t: Block, e: Block, rest: seq<Token>)
    requires GrammaticalS(IfElse(c, t, e))
    ensures ParseStmt(TokensS(IfElse(c, t, e)) + rest) == Some((IfElse(c, t, e), rest))
    decreases IfElse(c, t, e), 0
  {
    hide Tokens, TokensB, ParseBlock, ParseGuarded, ParseExprSemi;
    var ts := TokensS(IfElse(c, t, e)) + rest;
    var r := [TElse] + (Braced(e) + rest);
    assert ts[1..] == Tokens(c) + (Braced(t) + r);
    GuardedPrinted(c, t, r);
    assert r[1..] == Braced(e) + rest;
    BlockPrinted(e, rest);
  }

  lemma {:induction false} GuardedPrinted(c: Expr, b: Block, rest: seq<Token>)
    requires Grammatical(c) && GrammaticalB(b)
    ensures ParseGuarded(Tokens(c) + (Braced(b) + rest)) == Some(((c, b), rest))
    decreases b, 2
  {
    hide Parse, ParseExpr, ParseBlock, Tokens, TokensB;
    ExprPrinted(c, Braced(b) + rest);
    BlockPrinted(b, rest);
  }

  lemma {:induction false} BlockPrinted(b: Block, rest: seq<Token>)
    requires GrammaticalB(b)
    ensures ParseBlock(Braced(b) + rest) == Some((b, rest))
    decreases b, 1
  {
    hide ParseStmts, TokensB;
    var r := [TRBrace] + rest;
    assert (Braced(b) + rest)[1..] == TokensB(b) + r;
    StmtsPrinted(b, r);
    assert r[1..] == rest;
  }

  lemma {:induction false} StmtsPrinted(b: Block, rest: seq<Token>)
    requires GrammaticalB(b) && (rest == [] || rest[0] == TRBrace)
    ensures ParseStmts(TokensB(b) + rest) == Some((b, rest))
    decreases b, 0
  {
    hide ParseStmt;
    match b
    case Done => assert TokensB(b) + rest == rest;
    case Then(s, b') =>
      var r := TokensB(b') + rest;
      assert TokensB(b) + rest == TokensS(s) + r;
      StmtPrinted(s, r);
      StmtsPrinted(b', rest);
  }

  // ----- Printing what was parsed -----

  lemma {:induction false} ParsedPrints(ts: seq<Token>, p: nat)
    requires p <= 3 && Parse(ts, p).Some?
    ensures var (e, rest) := Parse(ts, p).value;
            ts == Tokens(e) + rest && Grammatical(e) && Level(e) >= p
    decreases |ts|, 10 - p
  {
    if p == 3 {
      AtomParsedPrints(ts);
    } else {
      ParsedPrints(ts, p + 1);
      var (e, rest) := Parse(ts, p + 1).value;
      TailParsedPrints(e, rest, p);
    }
  }

  lemma {:induction false} TailParsedPrints(e: Expr, ts: seq<Token>, p: nat)
    requires p < 3 && ParseTail(e, ts, p).Some? && Grammatical(e) && Level(e) >= p
    ensures var (e', rest) := ParseTail(e, ts, p).value;
            Tokens(e) + ts == Tokens(e') + rest && Grammatical(e') && Level(e') >= p
    decreases |ts|, 20
  {
    hide Parse;
    match OpAt(ts, p)
    case None =>
    case Some(op) =>
      ParsedPrints(ts[1..], p + 1);
      var (r, rest) := Parse(ts[1..], p + 1).value;
      TailParsedPrints(Bin(op, e, r), rest, p);
      assert ts == [OpToken(op)] + ts[1..];
      Gather(Tokens(e), OpToken(op), Tokens(r), rest);
  }

  lemma Gather(a: seq<Token>, t: Token, b: seq<Token>, c: seq<Token>)
    ensures a + ([t] + (b + c)) == a + [t] + b + c
  {
  }

  lemma {:induction false} AtomParsedPrints(ts: seq<Token>)
    requires ParseAtom(ts).Some?
    ensures var (e, rest) := ParseAtom(ts).value;
            ts == Tokens(e) + rest && Grammatical(e) && Level(e) == 3
    decreases |ts|, 0
  {
    assert ts == [ts[0]] + ts[1..];
    match ts[0]
    case TLParen =>
      ParsedPrints(ts[1..], 0);
      var (e, rest) := Parse(ts[1..], 0).value;
      assert rest == [TRParen] + rest[1..];
    case TMinus => AtomParsedPrints(ts[1..]);
    case _ =>
  }

  lemma ExprSemiParsedPrints(ts: seq<Token>)
    requires ParseExprSemi(ts).Some?
    ensures var (e, rest) := ParseExprSemi(ts).value;
            ts == Tokens(e) + [TSemi] + rest && Grammatical(e)
  {
    ParsedPrints(ts, 0);
    var (e, rest) := ParseExpr(ts).value;
    assert rest == [TSemi] + rest[1..];
  }

  lemma {:induction false} StmtParsedPrints(ts: seq<Token>)
    requires ParseStmt(ts).Some?
    ensures var (s, rest) := ParseStmt(ts).value;
            ts == TokensS(s) + rest && GrammaticalS(s)
    decreases |ts|, 1
  {
    hide ParseExprSemi, Tokens, TokensB, TokensS, ParseGuarded, ParseBlock, Braced, GrammaticalB, Grammatical;
    if ts[0] == TIf {
      IfParsedPrints(ts);
    } else if ts[0] == TWhile {
      GuardedParsedPrints(ts[1..]);
      WhileParsedPrints(ts);
    } else if ts[0] == TLoop {
      BlockParsedPrints(ts[1..]);
      LoopParsedPrints(ts);
    } else {
      PlainParsedPrints(ts);
    }
  }

  lemma WhileParsedPrints(ts: seq<Token>)
    requires ParseStmt(ts).Some? && ts[0] == TWhile && ParseGuarded(ts[1..]).Some?
    requires var ((c, b), rest) := ParseGuarded(ts[1..]).value;
             ts[1..] == Tokens(c) + (Braced(b) + rest) && Grammatical(c) && GrammaticalB(b)
    ensures var (s, rest) := ParseStmt(ts).value;
            ts == TokensS(s) + rest && GrammaticalS(s)
  {
    hide ParseExprSemi, Tokens, TokensB, ParseGuarded, ParseBlock, Braced, GrammaticalB, Grammatical;
    assert ts == [ts[0]] + ts[1..];
  }

  lemma LoopParsedPrints(ts: seq<Token>)
    requires ParseStmt(ts).Some? && ts[0] == TLoop && ParseBlock(ts[1..]).Some?
    requires var (b, rest) := ParseBlock(ts[1..]).value; ts[1..] == Braced(b) + rest && GrammaticalB(b)
    ensures var (s, rest) := ParseStmt(ts).value;
            ts == TokensS(s) + rest && GrammaticalS(s)
  {
    hide ParseExprSemi, Tokens, TokensB, ParseGuarded, ParseBlock, Braced, GrammaticalB, Grammatical;
    assert ts == [ts[0]] + ts[1..];
  }

  /** Statements without blocks. */
  lemma PlainParsedPrints(ts: seq<Token>)
    requires ParseStmt(ts).Some? && ts[0] != TIf && ts[0] != TWhile && ts[0] != TLoop
    ensures var (s, rest) := ParseStmt(ts).value;
            ts == TokensS(s) + rest && GrammaticalS(s)
  {
    hide ParseExprSemi, Tokens, TokensB, ParseGuarded, ParseBlock, ParsePrint, Braced, GrammaticalB, Grammatical;
    if ts[0] == TLet {
      LetParsedPrints(ts);
    } else if ts[0] == TPrint || ts[0] == TPrintln {
      PrintParsedPrints(ts);
    } else if ts[0] == TBreak {
      assert ts == ts[..2] + ts[2..];
    } else {
      assert ts == [ts[0]] + ts[1..];
    }
  }

  lemma LetParsedPrints(ts: seq<Token>)
    requires ParseStmt(ts).Some? && ts[0] == TLet
    ensures var (s, rest) := ParseStmt(ts).value;
            ts == TokensS(s) + rest && GrammaticalS(s)
  {
    LetParts(ts);
    hide *;
    ExprSemiParsedPrints(ts[3..]);
    Rejoin(ts, 3, [TLet, TIdent(ts[1].name), TEq], Tokens(ParseExprSemi(ts[3..]).value.0), [TSemi],
      ParseExprSemi(ts[3..]).value.1);
  }

  lemma LetParts(ts: seq<Token>)
    requires ParseStmt(ts).Some? && ts[0] == TLet
    ensures |ts| >= 3 && ts[1].TIdent? && ts[..3] == [TLet, TIdent(ts[1].name), TEq] && ParseExprSemi(ts[3..]).Some?
    ensures var p := ParseExprSemi(ts[3..]).value;
            var s := Let(ts[1].name, p.0);
            && ParseStmt(ts).value == (s, p.1) && GrammaticalS(s) == Grammatical(p.0)
            && TokensS(s) == [TLet, TIdent(ts[1].name), TEq] + Tokens(p.0) + [TSemi]
  {
    LetShape(ts);
    FirstThree(ts);
    LetTokens(ts[1].name, ParseExprSemi(ts[3..]).value.0);
    hide *;
  }

  lemma FirstThree(ts: seq<Token>)
    requires |ts| >= 3
    ensures ts[..3] == [ts[0], ts[1], ts[2]]
  {
  }

  lemma LetTokens(x: Name, e: Expr)
    ensures TokensS(Let(x, e)) == [TLet, TIdent(x), TEq] + Tokens(e) + [TSemi]
    ensures GrammaticalS(Let(x, e)) == Grammatical(e)
  {
    hide Tokens, Grammatical;
  }

  lemma LetShape(ts: seq<Token>)
    requires ParseStmt(ts).Some? && ts[0] == TLet
    ensures |ts| >= 3 && ts[1].TIdent? && ts[2] == TEq && ParseExprSemi(ts[3..]).Some?
    ensures ParseStmt(ts).value == (Let(ts[1].name, ParseExprSemi(ts[3..]).value.0), ParseExprSemi(ts[3..]).value.1)
  {
    hide ParseExprSemi, ParseGuarded, ParseBlock, ParsePrint;
  }

  lemma Rejoin(ts: seq<Token>, k: nat, head: seq<Token>, a: seq<Token>, b: seq<Token>, rest: seq<Token>)
    requires k <= |ts| && ts[..k] == head && ts[k..] == a + b + rest
    ensures ts == head + a + b + rest
  {
    assert ts == ts[..k] + ts[k..];
  }

  lemma PrintParsedPrints(ts: seq<Token>)
    requires ParseStmt(ts).Some? && (ts[0] == TPrint || ts[0] == TPrintln)
    ensures var (s, rest) := ParseStmt(ts).value;
            ts == TokensS(s) + rest && GrammaticalS(s)
  {
    PrintParts(ts);
    hide *;
    ExprSemiParsedPrints(ts[1..]);
    Rejoin(ts, 1, [ts[0]], Tokens(ParseExprSemi(ts[1..]).value.0), [TSemi], ParseExprSemi(ts[1..]).value.1);
  }

  lemma PrintParts(ts: seq<Token>)
    requires ParseStmt(ts).Some? && (ts[0] == TPrint || ts[0] == TPrintln)
    ensures ts[..1] == [ts[0]] && ParseExprSemi(ts[1..]).Some?
    ensures var (e, rest) := ParseExprSemi(ts[1..]).value;
            var s := Print(e, ts[0] == TPrintln);
            && ParseStmt(ts).value == (s, rest) && GrammaticalS(s) == Grammatical(e)
            && TokensS(s) == [ts[0]] + Tokens(e) + [TSemi]
  {
    hide ParseExprSemi, Tokens, Grammatical, ParseGuarded, ParseBlock;
  }

  lemma {:induction false} IfParsedPrints(ts: seq<Token>)
    requires ParseStmt(ts).Some? && ts[0] == TIf
    ensures var (s, rest) := ParseStmt(ts).value;
            ts == TokensS(s) + rest && GrammaticalS(s)
    decreases |ts|, 0
  {
    hide ParseExprSemi, Tokens, TokensB, ParseGuarded, ParseBlock, Braced, GrammaticalB, Grammatical;
    assert ts == [ts[0]] + ts[1..];
    GuardedParsedPrints(ts[1..]);
    var ((c, t), rest) := ParseGuarded(ts[1..]).value;
    if Head(rest) == Some(TElse) {
      assert rest == [TElse] + rest[1..];
      BlockParsedPrints(rest[1..]);
      var (e, rest') := ParseBlock(rest[1..]).value;
      Regrouped(ts[0], Tokens(c), Braced(t), [TElse], Braced(e), rest');
    }
  }

  lemma Regrouped(t: Token, a: seq<Token>, b: seq<Token>, c: seq<Token>, d: seq<Token>, e: seq<Token>)
    ensures [t] + (a + b + (c + (d + e))) == [t] + a + b + c + d + e
  {
  }

  lemma {:induction false} GuardedParsedPrints(ts: seq<Token>)
    requires ParseGuarded(ts).Some?
    ensures var (g, rest) := ParseGuarded(ts).value;
            ts == Tokens(g.0) + Braced(g.1) + rest && Grammatical(g.0) && GrammaticalB(g.1)
    decreases |ts|, 4
  {
    ParsedPrints(ts, 0);
    BlockParsedPrints(ParseExpr(ts).value.1);
  }

  lemma {:induction false} BlockParsedPrints(ts: seq<Token>)
    requires ParseBlock(ts).Some?
    ensures var (b, rest) := ParseBlock(ts).value; ts == Braced(b) + rest && GrammaticalB(b)
    decreases |ts|, 3
  {
    hide ParseStmts, TokensB, GrammaticalB;
    StmtsParsedPrints(ts[1..]);
    var p := ParseStmts(ts[1..]).value;
    Enclosed(ts, TokensB(p.0), p.1);
  }

  /** An opening token, the inside, and a closing token. */
  lemma Enclosed(ts: seq<Token>, inside: seq<Token>, tail: seq<Token>)
    requires ts != [] && ts[1..] == inside + tail && tail != []
    ensures ts == [ts[0]] + inside + [tail[0]] + tail[1..]
  {
    assert ts == [ts[0]] + ts[1..];
    assert tail == [tail[0]] + tail[1..];
  }

  lemma {:induction false} StmtsParsedPrints(ts: seq<Token>)
    requires ParseStmts(ts).Some?
    ensures var (b, rest) := ParseStmts(ts).value; ts == TokensB(b) + rest && GrammaticalB(b)
    decreases |ts|, 2
  {
    hide ParseStmt, TokensS, GrammaticalS;
    if !(ts == [] || ts[0] == TRBrace) {
      StmtParsedPrints(ts);
      StmtsParsedPrints(ParseStmt(ts).value.1);
    }
  }

  /** A token sequence parses as the program `b` exactly when it is `b` printed. */
  lemma ProgramRoundTrip(ts: seq<Token>, b: Block)
    ensures ParseProgram(ts) == Some(b) <==> ts == TokensB(b) && GrammaticalB(b)
  {
    if ParseProgram(ts) == Some(b) {
      StmtsParsedPrints(ts);
      assert TokensB(b) + [] == TokensB(b);
    }
    if ts == TokensB(b) && GrammaticalB(b) {
      StmtsPrinted(b, []);
      assert TokensB(b) + [] == TokensB(b);
    }
  }

  // ----- No rejected character -----

  lemma {:induction false} NoBadE(e: Expr)
    ensures TBad !in Tokens(e)
  {
    match e
    case Num(_) =>
    case Var(_) =>
    case Paren(i) => NoBadE(i);
    case Neg(a) => NoBadE(a);
    case Bin(_, l, r) => NoBadE(l); NoBadE(r);
  }

  lemma {:induction false} NoBadS(s: Stmt)
    ensures TBad !in TokensS(s)
    decreases s
  {
    hide Tokens;
    match s
    case Empty =>
    case Let(_, e) => NoBadE(e);
    case Print(e, _) => NoBadE(e);
    case If(c, t) => NoBadE(c); NoBadB(t);
    case IfElse(c, t, e) => NoBadE(c); NoBadB(t); NoBadB(e);
    case While(c, b) => NoBadE(c); NoBadB(b);
    case Loop(b) => NoBadB(b);
    case Break =>
  }

  /** A program's tokens can all be written. */
  lemma {:induction false} NoBadB(b: Block)
    ensures TBad !in TokensB(b)
    decreases b
  {
    hide TokensS;
    match b
    case Done =>
    case Then(s, rest) => NoBadS(s); NoBadB(rest);
  }

  // ----- The forms of statements, written out -----

  /** How simple statements are written: `print` without a newline and `println` with one, a name and an
      equals sign for `let`. */
  lemma SimpleForms(e: Expr, x: Name, rest: seq<Token>)
    requires Grammatical(e) && Head(rest) != Some(TElse)
    ensures ParseStmt([TSemi] + rest) == Some((Empty, rest)) && ParseStmt([TBreak, TSemi] + rest) == Some((Break, rest))
    ensures ParseStmt([TPrint] + Tokens(e) + [TSemi] + rest) == Some((Print(e, false), rest))
    ensures ParseStmt([TPrintln] + Tokens(e) + [TSemi] + rest) == Some((Print(e, true), rest))
    ensures ParseStmt([TLet, TIdent(x), TEq] + Tokens(e) + [TSemi] + rest) == Some((Let(x, e), rest))
  {
    hide ParseStmt, Tokens, Grammatical;
    StmtPrinted(Empty, rest);
    StmtPrinted(Break, rest);
    StmtPrinted(Print(e, false), rest);
    StmtPrinted(Print(e, true), rest);
    StmtPrinted(Let(x, e), rest);
  }

  /** How statements with blocks are written, with braces around each block. */
  lemma BlockForms(e: Expr, t: Block, f: Block, rest: seq<Token>)
    requires Grammatical(e) && GrammaticalB(t) && GrammaticalB(f) && Head(rest) != Some(TElse)
    ensures var then', else' := [TLBrace] + TokensB(t) + [TRBrace], [TLBrace] + TokensB(f) + [TRBrace];
            && ParseStmt([TIf] + Tokens(e) + then' + rest) == Some((If(e, t), rest))
            && ParseStmt([TIf] + Tokens(e) + then' + [TElse] + else' + rest) == Some((IfElse(e, t, f), rest))
            && ParseStmt([TWhile] + Tokens(e) + then' + rest) == Some((While(e, t), rest))
            && ParseStmt([TLoop] + then' + rest) == Some((Loop(t), rest))
  {
    hide ParseStmt, Tokens, TokensB, Grammatical, GrammaticalB;
    StmtPrinted(If(e, t), rest);
    StmtPrinted(IfElse(e, t, f), rest);
    StmtPrinted(While(e, t), rest);
    StmtPrinted(Loop(t), rest);
  }
}
