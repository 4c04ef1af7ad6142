/** Tokens, abstract syntax and grammar of the compiled Barrel language. */
module BarrelSyntax {
  import opened Words

  type Name = seq<byte>

  /** A token; TBad is a character the lexer rejects. The end of input is the end of the sequence. */
  datatype Token =
    | TNum(n: u64) | TIdent(name: Name)
    | TPrint | TPrintln | TLet | TIf | TElse | TWhile | TLoop | TBreak
    | TEq | TEqEq | TNe | TLt | TLe | TGt | TGe | TPlus | TMinus | TStar | TSlash
    | TLParen | TRParen | TLBrace | TRBrace | TSemi | TBad

  datatype Op = Eq | Ne | Lt | Le | Gt | Ge | Add | Sub | Mul | Div

  datatype Expr =
    | Num(n: u64)
    | Var(x: Name)
    | Paren(inner: Expr)
    | Neg(arg: Expr)
    | Bin(op: Op, l: Expr, r: Expr)

  datatype Stmt =
    | Empty
    | Let(x: Name, e: Expr)
    | Print(e: Expr, newline: bool)
    | If(c: Expr, t: Block)
    | IfElse(c: Expr, t: Block, els: Block)
    | While(c: Expr, body: Block)
    | Loop(body: Block)
    | Break

  datatype Block = Done | Then(s: Stmt, rest: Block)

  // ----- Printing -----

  function OpToken(op: Op): Token {
    match op
    case Eq => TEqEq case Ne => TNe case Lt => TLt case Le => TLe case Gt => TGt case Ge => TGe
    case Add => TPlus case Sub => TMinus case Mul => TStar case Div => TSlash
  }

  function Prec(op: Op): int {
    match op
    case Add => 1 case Sub => 1 case Mul => 2 case Div => 2 case _ => 0
  }

  function Level(e: Expr): int {
    match e
    case Bin(op, _, _) => Prec(op)
    case _ => 3
  }

  /** The trees of the grammar: operators associate to the left and bind by level. */
  predicate Grammatical(e: Expr) {
    match e
    case Num(_) => true
    case Var(_) => true
    case Paren(i) => Grammatical(i)
    case Neg(a) => Grammatical(a) && Level(a) == 3
    case Bin(op, l, r) => Grammatical(l) && Grammatical(r) && Level(l) >= Prec(op) && Level(r) > Prec(op)
  }

  predicate GrammaticalS(s: Stmt) {
    match s
    case Empty => true
    case Let(_, e) => Grammatical(e)
    case Print(e, _) => Grammatical(e)
    case If(c, t) => Grammatical(c) && GrammaticalB(t)
    case IfElse(c, t, e) => Grammatical(c) && GrammaticalB(t) && GrammaticalB(e)
    case While(c, b) => Grammatical(c) && GrammaticalB(b)
    case Loop(b) => GrammaticalB(b)
    case Break => true
  }

  predicate GrammaticalB(b: Block) {
    match b
    case Done => true
    case Then(s, rest) => GrammaticalS(s) && GrammaticalB(rest)
  }

  function Tokens(e: Expr): (ts: seq<Token>)
    ensures ts != []
  {
    match e
    case Num(n) => [TNum(n)]
    case Var(x) => [TIdent(x)]
    case Paren(i) => [TLParen] + Tokens(i) + [TRParen]
    case Neg(a) => [TMinus] + Tokens(a)
    case Bin(op, l, r) => Tokens(l) + [OpToken(op)] + Tokens(r)
  }

  function TokensS(s: Stmt): (ts: seq<Token>)
    ensures ts != [] && ts[0] != TRBrace && ts[0] != TElse
    decreases s
  {
    match s
    case Empty => [TSemi]
    case Let(x, e) => [TLet, TIdent(x), TEq] + Tokens(e) + [TSemi]
    case Print(e, nl) => [if nl then TPrintln else TPrint] + Tokens(e) + [TSemi]
    case If(c, t) => [TIf] + Tokens(c) + Braced(t)
    case IfElse(c, t, e) => [TIf] + Tokens(c) + Braced(t) + [TElse] + Braced(e)
    case While(c, b) => [TWhile] + Tokens(c) + Braced(b)
    case Loop(b) => [TLoop] + Braced(b)
    case Break => [TBreak, TSemi]
  }

  function TokensB(b: Block): seq<Token>
    decreases b, 0
  {
    match b
    case Done => []
    case Then(s, rest) => TokensS(s) + TokensB(rest)
  }

  function Braced(b: Block): seq<Token>
    decreases b, 1
  {
    [TLBrace] + TokensB(b) + [TRBrace]
  }

  // ----- Parsing: recursive descent over a token sequence -----

  type Parsed<T> = Option<(T, seq<Token>)>

  function Head(ts: seq<Token>): Option<Token> {
    if ts == [] then None else Some(ts[0])
  }

  function TokenOp(t: Token): Option<Op> {
    match t
    case TEqEq => Some(Eq) case TNe => Some(Ne) case TLt => Some(Lt) case TLe => Some(Le)
    case TGt => Some(Gt) case TGe => Some(Ge) case TPlus => Some(Add) case TMinus => Some(Sub)
    case TStar => Some(Mul) case TSlash => Some(Div)
    case _ => None
  }

  /** The operator of precedence `p` at the front, if there is one. */
  function OpAt(ts: seq<Token>, p: int): Option<Op> {
    if ts != [] && TokenOp(ts[0]).Some? && Prec(TokenOp(ts[0]).value) == p then TokenOp(ts[0]) else None
  }

  /** Expressions of level `p`: 0 comparison, 1 sum, 2 product, 3 atom. */
  function Parse(ts: seq<Token>, p: nat): (r: Parsed<Expr>)
    requires p <= 3
    ensures r.Some? ==> |r.value.1| < |ts|
    decreases |ts|, 10 - p
  {
    if p == 3 then ParseAtom(ts)
    else
      match Parse(ts, p + 1)
      case None => None
      case Some((e, rest)) => ParseTail(e, rest, p)
  }

  /** More operands of level `p` after the operand `e`. */
  function ParseTail(e: Expr, ts: seq<Token>, p: nat): (r: Parsed<Expr>)
    requires p < 3
    ensures r.Some? ==> |r.value.1| <= |ts|
    decreases |ts|, 20
  {
    match OpAt(ts, p)
    case None => Some((e, ts))
    case Some(op) =>
      match Parse(ts[1..], p + 1)
      case None => None
      case Some((r, rest)) => ParseTail(Bin(op, e, r), rest, p)
  }

  function ParseAtom(ts: seq<Token>): (r: Parsed<Expr>)
    ensures r.Some? ==> |r.value.1| < |ts|
    decreases |ts|, 0
  {
    if ts == [] then None
    else
      match ts[0]
      case TNum(n) => Some((Num(n), ts[1..]))
      case TIdent(x) => Some((Var(x), ts[1..]))
      case TLParen =>
        (match Parse(ts[1..], 0)
         case None => None
         case Some((e, rest)) => if Head(rest) == Some(TRParen) then Some((Paren(e), rest[1..])) else None)
      case TMinus =>
        (match ParseAtom(ts[1..])
         case None => None
         case Some((e, rest)) => Some((Neg(e), rest)))
      case _ => None
  }

  function ParseExpr(ts: seq<Token>): (r: Parsed<Expr>)
    ensures r.Some? ==> |r.value.1| < |ts|
  {
    Parse(ts, 0)
  }

  /** An expression followed by `;`. */
  function ParseExprSemi(ts: seq<Token>): (r: Parsed<Expr>)
    ensures r.Some? ==> |r.value.1| < |ts|
  {
    match ParseExpr(ts)
    case None => None
    case Some((e, rest)) => if Head(rest) == Some(TSemi) then Some((e, rest[1..])) else None
  }

  function ParseStmt(ts: seq<Token>): (r: Parsed<Stmt>)
    ensures r.Some? ==> |r.value.1| < |ts|
    decreases |ts|, 0
  {
    if ts == [] then None
    else
      match ts[0]
      case TSemi => Some((Empty, ts[1..]))
      case TLet =>
        if |ts| >= 3 && ts[1].TIdent? && ts[2] == TEq then
          match ParseExprSemi(ts[3..])
          case None => None
          case Some((e, rest)) => Some((Let(ts[1].name, e), rest))
        else None
      case TPrint => ParsePrint(ts[1..], false)
      case TPrintln => ParsePrint(ts[1..], true)
      case TIf =>
        (match ParseGuarded(ts[1..])
         case None => None
         case Some((g, rest)) =>
           if Head(rest) == Some(TElse) then
             match ParseBlock(rest[1..])
             case None => None
             case Some((e, rest')) => Some((IfElse(g.0, g.1, e), rest'))
           else Some((If(g.0, g.1), rest)))
      case TWhile =>
        (match ParseGuarded(ts[1..])
         case None => None
         case Some((g, rest)) => Some((While(g.0, g.1), rest)))
      case TLoop =>
        (match ParseBlock(ts[1..])
         case None => None
         case Some((b, rest)) => Some((Loop(b), rest)))
      case TBreak => if |ts| >= 2 && ts[1] == TSemi then Some((Break, ts[2..])) else None
      case _ => None
  }

  function ParsePrint(ts: seq<Token>, nl: bool): (r: Parsed<Stmt>)
    ensures r.Some? ==> |r.value.1| < |ts|
  {
    match ParseExprSemi(ts)
    case None => None
    case Some((e, rest)) => Some((Print(e, nl), rest))
  }

  /** A condition and its block. */
  function ParseGuarded(ts: seq<Token>): (r: Parsed<(Expr, Block)>)
    ensures r.Some? ==> |r.value.1| < |ts|
    decreases |ts|, 3
  {
    match ParseExpr(ts)
    case None => None
    case Some((c, rest)) =>
      match ParseBlock(rest)
      case None => None
      case Some((b, rest')) => Some(((c, b), rest'))
  }

  function ParseBlock(ts: seq<Token>): (r: Parsed<Block>)
    ensures r.Some? ==> |r.value.1| < |ts|
    decreases |ts|, 2
  {
    if Head(ts) != Some(TLBrace) then None
    else
      match ParseStmts(ts[1..])
      case None => None
      case Some((b, rest)) => if Head(rest) == Some(TRBrace) then Some((b, rest[1..])) else None
  }

  /** Statements up to a `}` or the end of input. */
  function ParseStmts(ts: seq<Token>): (r: Parsed<Block>)
    ensures r.Some? ==> |r.value.1| <= |ts|
    ensures r.Some? && r.value.1 != [] ==> r.value.1[0] == TRBrace
    decreases |ts|, 1
  {
    if ts == [] || ts[0] == TRBrace then Some((Done, ts))
    else
      match ParseStmt(ts)
      case None => None
      case Some((s, rest)) =>
        match ParseStmts(rest)
        case None => None
        case Some((b, rest')) => Some((Then(s, b), rest'))
  }

  /** A whole program: statements that use up the input. */
  function ParseProgram(ts: seq<Token>): Option<Block> {
    match ParseStmts(ts)
    case None => None
    case Some((b, rest)) => if rest == [] then Some(b) else None
  }
}
