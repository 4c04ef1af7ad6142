/** Where the compiler's first error comes from: it reports a syntax error only if the tokens read so far
    cannot be continued to what is being parsed. Only positions matter here, not what was parsed. */
module CompilerErrors {
  import opened Words
  import opened S = BarrelSyntax

  const E_PARSE := -100
  const E_OVERFLOW := -101
  const E_TOOMANY_VARS := -102

  predicate ErrorCode(e: int) { e == 0 || e == E_PARSE || e == E_OVERFLOW || e == E_TOOMANY_VARS }

  /** The tokens behind what was parsed; None if it could not be. */
  type End = Option<seq<Token>>

  function EndOf<T>(r: Parsed<T>): End { if r.None? then None else Some(r.value.1) }

  function Dropped(ts: seq<Token>): seq<Token> { if ts == [] then [] else ts[1..] }

  function Eaten(ts: seq<Token>, t: Token): End { if Head(ts) == Some(t) then Some(Dropped(ts)) else None }

  /** There is no way on: nothing was parsed, or a rejected character follows. */
  predicate Stuck(end: End) { end.None? || Head(end.value) == Some(TBad) }

  /** From error state `e0` to `e1`: the first error stays; without error the parser stands at `rest`,
      where it should; and a syntax error is one. */
  predicate Tracks(e0: int, e1: int, end: End, rest: seq<Token>) {
    if e0 != 0 then e1 == e0
    else
      && (e1 == 0 ==> end == Some(rest) && Head(rest) != Some(TBad))
      && (e1 == E_PARSE ==> Stuck(end))
  }

  /** An action that reads nothing may only exceed a limit. */
  lemma QuietAfter(e0: int, e1: int, e2: int, end: End, rest: seq<Token>)
    requires Tracks(e0, e1, end, rest) && (e2 == e1 || (e1 == 0 && e2 != E_PARSE))
    ensures Tracks(e0, e2, end, rest)
  {
  }

  lemma QuietBefore(e0: int, e1: int, e2: int, end: End, rest: seq<Token>)
    requires (e1 == e0 || (e0 == 0 && e1 != E_PARSE)) && Tracks(e1, e2, end, rest)
    ensures Tracks(e0, e2, end, rest)
  {
  }

  lemma Rejected(e0: int, e1: int, end: End, rest: seq<Token>)
    requires end.None? && e1 == if e0 == 0 then E_PARSE else e0
    ensures Tracks(e0, e1, end, rest)
  {
  }

  /** One part after the other. */
  lemma Sequence(e0: int, e1: int, e2: int, end1: End, rest1: seq<Token>, end2: End, rest2: seq<Token>, end: End)
    requires Tracks(e0, e1, end1, rest1) && Tracks(e1, e2, end2, rest2)
    requires end1 == Some(rest1) ==> end == end2
    requires Stuck(end1) ==> Stuck(end)
    ensures Tracks(e0, e2, end, rest2)
  {
  }

  // ----- Expressions -----

  /** Nothing parses from a rejected character. */
  lemma {:induction false} BadExpr(ts: seq<Token>, p: nat)
    requires p <= 3 && Head(ts) == Some(TBad)
    ensures Parse(ts, p).None?
    decreases 3 - p
  {
    if p < 3 { BadExpr(ts, p + 1); }
  }

  lemma SimpleAtom(ts: seq<Token>)
    requires ts != [] && (ts[0].TNum? || ts[0].TIdent?)
    ensures EndOf(Parse(ts, 3)) == Some(Dropped(ts))
  {
  }

  lemma NoAtom(ts: seq<Token>)
    requires ts == [] || !(ts[0].TNum? || ts[0].TIdent? || ts[0] == TLParen || ts[0] == TMinus)
    ensures EndOf(Parse(ts, 3)).None?
  {
  }

  function ParenEnd(ts: seq<Token>): End {
    match EndOf(Parse(ts, 0))
    case None => None
    case Some(rest) => Eaten(rest, TRParen)
  }

  lemma ParenAtom(ts: seq<Token>)
    requires ts != [] && ts[0] == TLParen
    ensures EndOf(Parse(ts, 3)) == ParenEnd(Dropped(ts))
  {
  }

  lemma NegAtom(ts: seq<Token>)
    requires ts != [] && ts[0] == TMinus
    ensures EndOf(Parse(ts, 3)) == EndOf(Parse(Dropped(ts), 3))
  {
  }

  lemma ParenTracks(e0: int, e1: int, e2: int, e3: int, ts: seq<Token>, r1: seq<Token>, r2: seq<Token>, r3: seq<Token>)
    requires ts != [] && ts[0] == TLParen && Tracks(e0, e1, Some(Dropped(ts)), r1)
    requires Tracks(e1, e2, EndOf(Parse(r1, 0)), r2) && Tracks(e2, e3, Eaten(r2, TRParen), r3)
    ensures Tracks(e0, e3, EndOf(Parse(ts, 3)), r3)
  {
    ParenAtom(ts);
    if Head(Dropped(ts)) == Some(TBad) { BadExpr(Dropped(ts), 0); }
    hide Tracks, Parse;
    Sequence(e1, e2, e3, EndOf(Parse(r1, 0)), r2, Eaten(r2, TRParen), r3, ParenEnd(r1));
    Sequence(e0, e1, e3, Some(Dropped(ts)), r1, ParenEnd(r1), r3, ParenEnd(Dropped(ts)));
  }

  lemma NegTracks(e0: int, e1: int, e2: int, ts: seq<Token>, r1: seq<Token>, r2: seq<Token>)
    requires ts != [] && ts[0] == TMinus && Tracks(e0, e1, Some(Dropped(ts)), r1)
    requires Tracks(e1, e2, EndOf(Parse(r1, 3)), r2)
    ensures Tracks(e0, e2, EndOf(Parse(ts, 3)), r2)
  {
    NegAtom(ts);
    if Head(Dropped(ts)) == Some(TBad) { BadExpr(Dropped(ts), 3); }
    hide Tracks, Parse;
    Sequence(e0, e1, e2, Some(Dropped(ts)), r1, EndOf(Parse(r1, 3)), r2, EndOf(Parse(ts, 3)));
  }

  /** Where more operands of level `p` end; what the first was does not matter. */
  function TailEnd(ts: seq<Token>, p: nat): End
    requires p < 3
  {
    EndOf(ParseTail(Num(0), ts, p))
  }

  lemma {:induction false} AnyOperand(e: Expr, ts: seq<Token>, p: nat)
    requires p < 3
    ensures EndOf(ParseTail(e, ts, p)) == TailEnd(ts, p)
    decreases |ts|
  {
    hide Parse;
    match OpAt(ts, p)
    case None =>
    case Some(op) =>
      match Parse(ts[1..], p + 1)
      case None =>
      case Some((r, rest)) =>
        AnyOperand(Bin(op, e, r), rest, p);
        AnyOperand(Bin(op, Num(0), r), rest, p);
  }

  lemma LevelEnd(ts: seq<Token>, p: nat)
    requires p < 3
    ensures var first := EndOf(Parse(ts, p + 1));
            EndOf(Parse(ts, p)) == if first.None? then None else TailEnd(first.value, p)
  {
    hide ParseTail, ParseAtom;
    match Parse(ts, p + 1)
    case None =>
    case Some((e, rest)) => AnyOperand(e, rest, p);
  }

  lemma TailUnfold(ts: seq<Token>, p: nat)
    requires p < 3
    ensures OpAt(ts, p).None? ==> TailEnd(ts, p) == Some(ts)
    ensures OpAt(ts, p).Some? ==>
      var next := EndOf(Parse(Dropped(ts), p + 1));
      TailEnd(ts, p) == if next.None? then None else TailEnd(next.value, p)
  {
    hide Parse;
    if OpAt(ts, p).Some? {
      match Parse(ts[1..], p + 1)
      case None =>
      case Some((r, rest)) => AnyOperand(Bin(OpAt(ts, p).value, Num(0), r), rest, p);
    }
  }

  lemma BadTail(ts: seq<Token>, p: nat)
    requires p < 3 && Head(ts) == Some(TBad)
    ensures TailEnd(ts, p) == Some(ts)
  {
  }

  /** In an operator loop: without error, the operands end where those from here on do. */
  predicate Looping(e0: int, e1: int, end: End, rest: seq<Token>, p: nat)
    requires p < 3
  {
    if e0 != 0 then e1 == e0
    else
      && (e1 == 0 ==> end == TailEnd(rest, p) && Head(rest) != Some(TBad))
      && (e1 == E_PARSE ==> Stuck(end))
  }

  lemma LoopBegins(e0: int, e1: int, ts: seq<Token>, rest: seq<Token>, p: nat)
    requires p < 3 && Tracks(e0, e1, EndOf(Parse(ts, p + 1)), rest)
    ensures Looping(e0, e1, EndOf(Parse(ts, p)), rest, p)
  {
    LevelEnd(ts, p);
    hide Parse, TailEnd;
    var first := EndOf(Parse(ts, p + 1));
    if first.Some? && Head(first.value) == Some(TBad) { BadTail(first.value, p); }
  }

  lemma LoopTurns(e0: int, e1: int, e2: int, e3: int, e4: int, end: End, rest: seq<Token>, r1: seq<Token>,
                  r2: seq<Token>, p: nat)
    requires p < 3 && Looping(e0, e1, end, rest, p) && (e1 == 0 ==> OpAt(rest, p).Some?)
    requires Tracks(e1, e2, Some(Dropped(rest)), r1) && Tracks(e2, e3, EndOf(Parse(r1, p + 1)), r2)
    requires e4 == e3 || (e3 == 0 && e4 != E_PARSE)
    ensures Looping(e0, e4, end, r2, p)
  {
    TailUnfold(rest, p);
    if Head(Dropped(rest)) == Some(TBad) { BadExpr(Dropped(rest), p + 1); }
    hide Parse, TailEnd, OpAt;
    var next := EndOf(Parse(r1, p + 1));
    if next.Some? && Head(next.value) == Some(TBad) { BadTail(next.value, p); }
  }

  lemma LoopLeft(e0: int, e1: int, end: End, rest: seq<Token>, p: nat)
    requires p < 3 && Looping(e0, e1, end, rest, p) && (e1 == 0 ==> OpAt(rest, p).None?)
    ensures Tracks(e0, e1, end, rest)
  {
    TailUnfold(rest, p);
    hide TailEnd, OpAt;
  }

  // ----- Statements -----

  lemma ExprSemiTracks(e0: int, e1: int, e2: int, ts: seq<Token>, r1: seq<Token>, r2: seq<Token>)
    requires Tracks(e0, e1, EndOf(Parse(ts, 0)), r1) && Tracks(e1, e2, Eaten(r1, TSemi), r2)
    ensures Tracks(e0, e2, EndOf(ParseExprSemi(ts)), r2)
  {
    hide Parse, Tracks;
    Sequence(e0, e1, e2, EndOf(Parse(ts, 0)), r1, Eaten(r1, TSemi), r2, EndOf(ParseExprSemi(ts)));
  }

  lemma BadSemi(ts: seq<Token>)
    requires Head(ts) == Some(TBad)
    ensures ParseExprSemi(ts).None?
  {
    hide Parse;
    BadExpr(ts, 0);
  }

  lemma BadBlock(ts: seq<Token>)
    requires Head(ts) == Some(TBad)
    ensures ParseBlock(ts).None? && ParseGuarded(ts).None? && ParseStmts(ts).None?
  {
    hide Parse;
    BadExpr(ts, 0);
  }

  lemma EmptyEnd(ts: seq<Token>)
    requires ts != [] && ts[0] == TSemi
    ensures EndOf(ParseStmt(ts)) == Some(Dropped(ts))
  {
  }

  lemma NoStmt(ts: seq<Token>)
    requires ts != []
    requires ts[0] != TSemi && ts[0] != TLet && ts[0] != TPrint && ts[0] != TPrintln && ts[0] != TIf
    requires ts[0] != TWhile && ts[0] != TLoop && ts[0] != TBreak
    ensures ParseStmt(ts).None?
  {
  }

  /** From a name on: the equals sign, an expression and a semicolon. */
  function LetEnd(ts: seq<Token>): End {
    match Eaten(Dropped(ts), TEq)
    case None => None
    case Some(rest) => EndOf(ParseExprSemi(rest))
  }

  lemma LetIs(ts: seq<Token>)
    requires ts != [] && ts[0] == TLet
    ensures var r := Dropped(ts);
            EndOf(ParseStmt(ts)) == if r != [] && r[0].TIdent? then LetEnd(r) else None
  {
    hide ParseExprSemi;
    if |ts| >= 3 { assert ts[1..][1..][1..] == ts[3..]; }
  }

  lemma NameTracks(e0: int, e1: int, e2: int, ts: seq<Token>, r1: seq<Token>, r2: seq<Token>)
    requires Tracks(e0, e1, Some(Dropped(ts)), r1) && Tracks(e1, e2, Eaten(r1, TEq), r2)
    ensures Tracks(e0, e2, Eaten(Dropped(ts), TEq), r2)
  {
    hide Tracks;
    Sequence(e0, e1, e2, Some(Dropped(ts)), r1, Eaten(r1, TEq), r2, Eaten(Dropped(ts), TEq));
  }

  lemma LetRestTracks(e0: int, e1: int, e2: int, ts: seq<Token>, r1: seq<Token>, r2: seq<Token>)
    requires Tracks(e0, e1, Eaten(Dropped(ts), TEq), r1) && Tracks(e1, e2, EndOf(ParseExprSemi(r1)), r2)
    ensures Tracks(e0, e2, LetEnd(ts), r2)
  {
    var end := Eaten(Dropped(ts), TEq);
    if end.Some? && Head(end.value) == Some(TBad) { BadSemi(end.value); }
    hide Tracks, ParseExprSemi;
    Sequence(e0, e1, e2, end, r1, EndOf(ParseExprSemi(r1)), r2, LetEnd(ts));
  }

  lemma LetTracks(e0: int, e1: int, e2: int, ts: seq<Token>, r1: seq<Token>, r2: seq<Token>)
    requires ts != [] && ts[0] == TLet && Tracks(e0, e1, Some(Dropped(ts)), r1)
    requires if r1 != [] && r1[0].TIdent? then Tracks(e1, e2, LetEnd(r1), r2) else Tracks(e1, e2, None, r2)
    ensures Tracks(e0, e2, EndOf(ParseStmt(ts)), r2)
  {
    LetIs(ts);
    hide Tracks, ParseStmt, LetEnd;
    Sequence(e0, e1, e2, Some(Dropped(ts)), r1, if r1 != [] && r1[0].TIdent? then LetEnd(r1) else None, r2,
      EndOf(ParseStmt(ts)));
  }

  lemma PrintTracks(e0: int, e1: int, e2: int, ts: seq<Token>, r1: seq<Token>, r2: seq<Token>)
    requires ts != [] && (ts[0] == TPrint || ts[0] == TPrintln) && Tracks(e0, e1, Some(Dropped(ts)), r1)
    requires Tracks(e1, e2, EndOf(ParseExprSemi(r1)), r2)
    ensures Tracks(e0, e2, EndOf(ParseStmt(ts)), r2)
  {
    if Head(Dropped(ts)) == Some(TBad) { BadSemi(Dropped(ts)); }
    hide Tracks, ParseExprSemi;
    Sequence(e0, e1, e2, Some(Dropped(ts)), r1, EndOf(ParseExprSemi(r1)), r2, EndOf(ParseStmt(ts)));
  }

  lemma GuardedTracks(e0: int, e1: int, e2: int, e3: int, ts: seq<Token>, r1: seq<Token>, r2: seq<Token>,
                      r3: seq<Token>)
    requires Tracks(e0, e1, Some(Dropped(ts)), r1) && Tracks(e1, e2, EndOf(Parse(r1, 0)), r2)
    requires Tracks(e2, e3, EndOf(ParseBlock(r2)), r3)
    ensures Tracks(e0, e3, EndOf(ParseGuarded(Dropped(ts))), r3)
  {
    if Head(Dropped(ts)) == Some(TBad) { BadBlock(Dropped(ts)); }
    var end := EndOf(Parse(r1, 0));
    if end.Some? && Head(end.value) == Some(TBad) { BadBlock(end.value); }
    hide Tracks, Parse, ParseBlock;
    Sequence(e1, e2, e3, end, r2, EndOf(ParseBlock(r2)), r3, EndOf(ParseGuarded(r1)));
    Sequence(e0, e1, e3, Some(Dropped(ts)), r1, EndOf(ParseGuarded(r1)), r3, EndOf(ParseGuarded(Dropped(ts))));
  }

  lemma WhileEnd(ts: seq<Token>)
    requires ts != [] && ts[0] == TWhile
    ensures EndOf(ParseStmt(ts)) == EndOf(ParseGuarded(Dropped(ts)))
  {
    hide ParseGuarded;
  }

  /** Where the else branch ends, if there is one. */
  function ElseEnd(ts: seq<Token>): End {
    if Head(ts) == Some(TElse) then EndOf(ParseBlock(Dropped(ts))) else Some(ts)
  }

  lemma IfTracks(e0: int, e1: int, e2: int, ts: seq<Token>, r1: seq<Token>, r2: seq<Token>)
    requires ts != [] && ts[0] == TIf && Tracks(e0, e1, EndOf(ParseGuarded(Dropped(ts))), r1)
    requires Tracks(e1, e2, ElseEnd(r1), r2)
    ensures Tracks(e0, e2, EndOf(ParseStmt(ts)), r2)
  {
    hide Tracks, ParseGuarded, ParseBlock;
    Sequence(e0, e1, e2, EndOf(ParseGuarded(Dropped(ts))), r1, ElseEnd(r1), r2, EndOf(ParseStmt(ts)));
  }

  lemma ElseEndIs(ts: seq<Token>)
    ensures ElseEnd(ts) == if Head(ts) == Some(TElse) then EndOf(ParseBlock(Dropped(ts))) else Some(ts)
  {
  }

  /** A keyword and a block. */
  lemma BlockBehind(e0: int, e1: int, e2: int, ts: seq<Token>, r1: seq<Token>, r2: seq<Token>)
    requires Tracks(e0, e1, Some(Dropped(ts)), r1) && Tracks(e1, e2, EndOf(ParseBlock(r1)), r2)
    ensures Tracks(e0, e2, EndOf(ParseBlock(Dropped(ts))), r2)
  {
    if Head(Dropped(ts)) == Some(TBad) { BadBlock(Dropped(ts)); }
    hide Tracks, ParseBlock;
    Sequence(e0, e1, e2, Some(Dropped(ts)), r1, EndOf(ParseBlock(r1)), r2, EndOf(ParseBlock(Dropped(ts))));
  }

  lemma LoopEnd(ts: seq<Token>)
    requires ts != [] && ts[0] == TLoop
    ensures EndOf(ParseStmt(ts)) == EndOf(ParseBlock(Dropped(ts)))
  {
    hide ParseBlock;
  }

  lemma BreakTracks(e0: int, e1: int, e2: int, ts: seq<Token>, r1: seq<Token>, r2: seq<Token>)
    requires ts != [] && ts[0] == TBreak && Tracks(e0, e1, Some(Dropped(ts)), r1)
    requires Tracks(e1, e2, Eaten(r1, TSemi), r2)
    ensures Tracks(e0, e2, EndOf(ParseStmt(ts)), r2)
  {
    hide Tracks;
    assert EndOf(ParseStmt(ts)) == Eaten(Dropped(ts), TSemi);
    Sequence(e0, e1, e2, Some(Dropped(ts)), r1, Eaten(r1, TSemi), r2, EndOf(ParseStmt(ts)));
  }

  // ----- Statement lists -----

  /** In a statement loop: without error, the statements end where those from here on do. */
  predicate Ongoing(e0: int, e1: int, end: End, rest: seq<Token>) {
    if e0 != 0 then e1 == e0
    else
      && (e1 == 0 ==> end == EndOf(ParseStmts(rest)) && Head(rest) != Some(TBad))
      && (e1 == E_PARSE ==> end.None?)
  }

  lemma StmtsBegin(e0: int, e1: int, ts: seq<Token>, rest: seq<Token>)
    requires Tracks(e0, e1, Some(ts), rest)
    ensures Ongoing(e0, e1, EndOf(ParseStmts(ts)), rest)
  {
    if Head(ts) == Some(TBad) { BadBlock(ts); }
    hide ParseStmts;
  }

  lemma StmtsTurn(e0: int, e1: int, e2: int, end: End, rest: seq<Token>, r: seq<Token>)
    requires Ongoing(e0, e1, end, rest) && e1 == 0 && rest != [] && rest[0] != TRBrace
    requires Tracks(e1, e2, EndOf(ParseStmt(rest)), r)
    ensures Ongoing(e0, e2, end, r)
  {
    var next := EndOf(ParseStmt(rest));
    if next.Some? && Head(next.value) == Some(TBad) { BadBlock(next.value); }
    hide ParseStmt;
  }

  lemma StmtsLeft(e0: int, e1: int, end: End, rest: seq<Token>)
    requires Ongoing(e0, e1, end, rest) && (e1 == 0 ==> rest == [] || rest[0] == TRBrace)
    ensures Tracks(e0, e1, end, rest)
  {
  }

  lemma SyntaxError(e: int, r: Parsed<Block>, rest: seq<Token>)
    requires Ongoing(0, e, EndOf(r), rest)
    ensures e == E_PARSE ==> r.None?
  {
  }

  lemma BlockTracks(e0: int, e1: int, e2: int, e3: int, ts: seq<Token>, r1: seq<Token>, r2: seq<Token>, r3: seq<Token>)
    requires Tracks(e0, e1, Eaten(ts, TLBrace), r1) && Tracks(e1, e2, EndOf(ParseStmts(r1)), r2)
    requires Tracks(e2, e3, Eaten(r2, TRBrace), r3)
    ensures Tracks(e0, e3, EndOf(ParseBlock(ts)), r3)
  {
    var first := Eaten(ts, TLBrace);
    if first.Some? && Head(first.value) == Some(TBad) { BadBlock(first.value); }
    hide Tracks, ParseStmts;
    Sequence(e1, e2, e3, EndOf(ParseStmts(r1)), r2, Eaten(r2, TRBrace), r3, BracedEnd(r1));
    Sequence(e0, e1, e3, first, r1, BracedEnd(r1), r3, EndOf(ParseBlock(ts)));
  }

  function BracedEnd(ts: seq<Token>): End {
    match EndOf(ParseStmts(ts))
    case None => None
    case Some(rest) => Eaten(rest, TRBrace)
  }
}
