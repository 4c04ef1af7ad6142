/** The expression evaluators of the Barrel interpreter, which walk a token array with a cursor. They
    compute the value of the expression that stands there, for all operators of the interpreter. */
module Interpreter {
  import opened Words
  import S = BarrelSyntax
  import Sem = BarrelSemantics

  const MAX_TOKENS := 64

  datatype Token =
    | Eof | Ident | Number | String | Print | Println | Let | Input | If | Else | Loop | While | Break
    | Eq | EqEq | Ne | Lt | Gt | Le | Ge | AndAnd | OrOr | Not | Mod | Plus | Minus | Star | Slash
    | LParen | RParen | LBrace | RBrace | Semicolon | Comma
    | DrawPixel | DrawLine | DrawRect | DrawCircle | ClearScreen

  datatype Value = Num(n: u64) | Str(start: u64) | Nil

  /** Token kinds and their values, the variables, and the numbers that will be typed in. */
  datatype Script = Script(tokens: seq<Token>, values: seq<u64>, env: map<u64, Value>, typed: nat -> u64)

  predicate Sized(s: Script) { |s.tokens| == MAX_TOKENS && |s.values| == MAX_TOKENS }

  function Peek(s: Script, ip: nat): Token
    requires Sized(s)
  {
    if ip < MAX_TOKENS then s.tokens[ip] else Eof
  }

  // ----- Expressions and their values -----

  datatype Expr =
    | Nothing
    | Lit(n: u64)
    | Text(start: u64)
    | Name(start: u64)
    | Ask
    | Group(inner: Expr)
    | Negated(arg: Expr)
    | Inverted(arg: Expr)
    | Binary(op: Token, left: Expr, right: Expr)

  /** Whether an operator belongs to the level: 0 comparisons and logic, 1 sums, 2 products. */
  predicate Continues(t: Token, p: nat) {
    if p == 0 then t == EqEq || t == Ne || t == Lt || t == Gt || t == Le || t == Ge || t == AndAnd || t == OrOr
    else if p == 1 then t == Plus || t == Minus
    else p == 2 && (t == Star || t == Slash || t == Mod)
  }

  predicate Operator(t: Token) { Continues(t, 0) || Continues(t, 1) || Continues(t, 2) }

  function Truth(b: bool): u64 { if b then 1 else 0 }

  function Apply(op: Token, a: u64, b: u64): u64 {
    if op == Plus then Wrap(a as int + b as int)
    else if op == Minus then Wrap(a as int - b as int)
    else if op == Star then Wrap(a as int * b as int)
    else if op == Slash then (if b == 0 then 0 else a / b)
    else if op == Mod then (if b == 0 then 0 else a % b)
    else if op == AndAnd then Truth(a != 0 && b != 0)
    else if op == OrOr then Truth(a != 0 || b != 0)
    else if op == EqEq then Truth(a == b)
    else if op == Ne then Truth(a != b)
    else if op == Lt then Truth(a < b)
    else if op == Gt then Truth(a > b)
    else if op == Le then Truth(a <= b)
    else Truth(a >= b)
  }

  /** What a value counts as in arithmetic. */
  function NumberOf(v: Value): u64 { if v.Num? then v.n else 0 }

  function Negate(v: Value): Value { if v.Num? then Num(Wrap(0 - v.n)) else Nil }

  function Invert(v: Value): Value { if v.Num? then Num(Truth(v.n == 0)) else Nil }

  /** The value, when `k` numbers have been typed in before, and how many have been afterwards. */
  function Eval(x: Expr, s: Script, k: nat): (Value, nat)
    decreases x
  {
    match x
    case Nothing => (Nil, k)
    case Lit(n) => (Num(n), k)
    case Text(start) => (Str(start), k)
    case Name(start) => (if start in s.env then s.env[start] else Nil, k)
    case Ask => (Num(s.typed(k)), k + 1)
    case Group(i) => Eval(i, s, k)
    case Negated(a) => var (v, k') := Eval(a, s, k); (Negate(v), k')
    case Inverted(a) => var (v, k') := Eval(a, s, k); (Invert(v), k')
    case Binary(op, l, r) =>
      var (a, k1) := Eval(l, s, k);
      var (b, k2) := Eval(r, s, k1);
      (Num(Apply(op, NumberOf(a), NumberOf(b))), k2)
  }

  /** Quotient and remainder belong together, and logic is that of zero and not zero. */
  lemma OperatorLaws(a: u64, b: u64)
    ensures b != 0 ==> Apply(Slash, a, b) * b + Apply(Mod, a, b) == a && Apply(Mod, a, b) < b
    ensures b == 0 ==> Apply(Slash, a, b) == 0 && Apply(Mod, a, b) == 0
    ensures Apply(AndAnd, a, b) <= 1 && (Apply(AndAnd, a, b) == 1 <==> a != 0 && b != 0)
    ensures Apply(OrOr, a, b) <= 1 && (Apply(OrOr, a, b) == 0 <==> a == 0 && b == 0)
    ensures Invert(Num(a)) == Num(1) <==> a == 0
    ensures Invert(Num(Apply(AndAnd, a, b))) == Num(Apply(OrOr, Invert(Num(a)).n, Invert(Num(b)).n))
  {
  }

  // ----- The expression at a cursor -----

  /** The expression of level `p` that the interpreter reads at `ip`, and the cursor behind it. Whatever
      stands there, it reads something. */
  function ParseAt(s: Script, ip: nat, p: nat): (r: (Expr, nat))
    requires Sized(s) && ip <= MAX_TOKENS && p <= 3
    ensures ip <= r.1 <= MAX_TOKENS && (ip < MAX_TOKENS ==> ip < r.1)
    decreases MAX_TOKENS - ip, 4 - p
  {
    if p == 3 then AtomAt(s, ip) else var (x, j) := ParseAt(s, ip, p + 1); TailAt(s, x, j, p)
  }

  /** More operands of level `p` behind `x`. */
  function TailAt(s: Script, x: Expr, ip: nat, p: nat): (r: (Expr, nat))
    requires Sized(s) && ip <= MAX_TOKENS && p < 3
    ensures ip <= r.1 <= MAX_TOKENS
    decreases MAX_TOKENS - ip, 0
  {
    var op := Peek(s, ip);
    if !Continues(op, p) then (x, ip)
    else var (y, j) := ParseAt(s, ip + 1, p + 1); TailAt(s, Binary(op, x, y), j, p)
  }

  function AtomAt(s: Script, ip: nat): (r: (Expr, nat))
    requires Sized(s) && ip <= MAX_TOKENS
    ensures ip <= r.1 <= MAX_TOKENS && (ip < MAX_TOKENS ==> ip < r.1)
    decreases MAX_TOKENS - ip, 0
  {
    if ip == MAX_TOKENS then (Nothing, ip)
    else
      var t, v := s.tokens[ip], s.values[ip];
      if t == Number then (Lit(v), ip + 1)
      else if t == String then (Text(v), ip + 1)
      else if t == Ident then (Name(v), ip + 1)
      else if t == Input then (Ask, ip + 1)
      else if t == LParen then
        var (x, j) := ParseAt(s, ip + 1, 0);
        (Group(x), if j < MAX_TOKENS && s.tokens[j] == RParen then j + 1 else j)
      else if t == Minus then var (x, j) := AtomAt(s, ip + 1); (Negated(x), j)
      else if t == Not then var (x, j) := AtomAt(s, ip + 1); (Inverted(x), j)
      else (Nothing, ip + 1)
  }

  /** The value and the cursors are those of the expression of level `p` at `ip`. */
  ghost predicate Right(s: Script, ip: nat, p: nat, k: nat, v: Value, ip': nat, k': nat)
    requires Sized(s) && ip <= MAX_TOKENS && p <= 3
  {
    var (x, j) := ParseAt(s, ip, p);
    Eval(x, s, k) == (v, k') && ip' == j
  }

  lemma AtomIs(s: Script, ip: nat)
    requires Sized(s) && ip <= MAX_TOKENS
    ensures ParseAt(s, ip, 3) == AtomAt(s, ip)
  {
  }

  lemma LevelIs(s: Script, ip: nat, p: nat)
    requires Sized(s) && ip <= MAX_TOKENS && p < 3
    ensures var (x, j) := ParseAt(s, ip, p + 1); ParseAt(s, ip, p) == TailAt(s, x, j, p)
  {
    hide TailAt, AtomAt;
  }

  lemma TailIs(s: Script, x: Expr, ip: nat, p: nat)
    requires Sized(s) && ip <= MAX_TOKENS && p < 3
    ensures !Continues(Peek(s, ip), p) ==> TailAt(s, x, ip, p) == (x, ip)
    ensures Continues(Peek(s, ip), p) ==>
              ip < MAX_TOKENS && var (y, j) := ParseAt(s, ip + 1, p + 1);
              TailAt(s, x, ip, p) == TailAt(s, Binary(Peek(s, ip), x, y), j, p)
  {
    hide ParseAt, AtomAt;
  }

  /** In an operator loop: `v` is the value of the operands `x` read so far. */
  ghost predicate Going(s: Script, ip0: nat, p: nat, k0: nat, x: Expr, v: Value, ip: nat, k: nat)
    requires Sized(s) && ip0 <= MAX_TOKENS && p < 3
  {
    ip <= MAX_TOKENS && ParseAt(s, ip0, p) == TailAt(s, x, ip, p) && Eval(x, s, k0) == (v, k)
  }

  lemma GoingStarts(s: Script, ip0: nat, p: nat, k0: nat, v: Value, ip: nat, k: nat) returns (x: Expr)
    requires Sized(s) && ip0 <= MAX_TOKENS && p < 3 && Right(s, ip0, p + 1, k0, v, ip, k)
    ensures Going(s, ip0, p, k0, x, v, ip, k)
  {
    hide TailAt, AtomAt, Eval;
    x := ParseAt(s, ip0, p + 1).0;
  }

  lemma GoingOn(s: Script, ip0: nat, p: nat, k0: nat, x: Expr, v: Value, ip: nat, k: nat, w: Value, ip': nat, k': nat)
    returns (x': Expr)
    requires Sized(s) && ip0 <= MAX_TOKENS && p < 3 && Going(s, ip0, p, k0, x, v, ip, k) && ip < MAX_TOKENS
    requires Continues(s.tokens[ip], p) && Right(s, ip + 1, p + 1, k, w, ip', k')
    ensures Going(s, ip0, p, k0, x', Num(Apply(s.tokens[ip], NumberOf(v), NumberOf(w))), ip', k')
  {
    hide ParseAt, AtomAt, Apply, Continues;
    x' := Binary(s.tokens[ip], x, ParseAt(s, ip + 1, p + 1).0);
  }

  lemma GoingEnds(s: Script, ip0: nat, p: nat, k0: nat, x: Expr, v: Value, ip: nat, k: nat)
    requires Sized(s) && ip0 <= MAX_TOKENS && p < 3 && Going(s, ip0, p, k0, x, v, ip, k) && !Continues(Peek(s, ip), p)
    ensures Right(s, ip0, p, k0, v, ip, k)
  {
    hide ParseAt, AtomAt, Eval, Continues;
  }

  // ----- The evaluators -----

  method EvalCmp(s: Script, ip0: nat, k0: nat) returns (left: Value, ip: nat, k: nat)
    requires Sized(s) && ip0 <= MAX_TOKENS
    ensures ip0 <= ip <= MAX_TOKENS && (ip0 < MAX_TOKENS ==> ip > ip0) && Right(s, ip0, 0, k0, left, ip, k)
    decreases MAX_TOKENS - ip0, 3
  {
    hide Right, Going, ParseAt, Eval, Apply;
    left, ip, k := EvalAdd(s, ip0, k0);
    ghost var x := GoingStarts(s, ip0, 0, k0, left, ip, k);
    while true
      invariant ip0 <= ip <= MAX_TOKENS && (ip0 < MAX_TOKENS ==> ip > ip0) && Going(s, ip0, 0, k0, x, left, ip, k)
      decreases MAX_TOKENS - ip
    {
      var op := Peek(s, ip);
      if !Continues(op, 0) { break; }
      ghost var before, at, k1 := left, ip, k;
      var right;
      right, ip, k := EvalAdd(s, ip + 1, k);
      var n := Combined(op, NumberOf(left), NumberOf(right));
      left := Num(n);
      x := GoingOn(s, ip0, 0, k0, x, before, at, k1, right, ip, k);
    }
    GoingEnds(s, ip0, 0, k0, x, left, ip, k);
  }

  /** A comparison or a logical operator; both operands have been evaluated. */
  method Combined(op: Token, ln: u64, rn: u64) returns (n: u64)
    requires Continues(op, 0)
    ensures n == Apply(op, ln, rn)
  {
    if op == AndAnd {
      if ln == 0 { n := 0; } else { n := if rn != 0 then 1 else 0; }
    } else if op == OrOr {
      if ln != 0 { n := 1; } else { n := if rn != 0 then 1 else 0; }
    } else {
      var holds :=
        if op == EqEq then ln == rn else if op == Ne then ln != rn else if op == Lt then ln < rn
        else if op == Gt then ln > rn else if op == Le then ln <= rn else ln >= rn;
      n := if holds then 1 else 0;
    }
  }

  method EvalAdd(s: Script, ip0: nat, k0: nat) returns (left: Value, ip: nat, k: nat)
    requires Sized(s) && ip0 <= MAX_TOKENS
    ensures ip0 <= ip <= MAX_TOKENS && (ip0 < MAX_TOKENS ==> ip > ip0) && Right(s, ip0, 1, k0, left, ip, k)
    decreases MAX_TOKENS - ip0, 2
  {
    hide Right, Going, ParseAt, Eval, Wrap, Apply;
    left, ip, k := EvalMul(s, ip0, k0);
    ghost var x := GoingStarts(s, ip0, 1, k0, left, ip, k);
    while true
      invariant ip0 <= ip <= MAX_TOKENS && (ip0 < MAX_TOKENS ==> ip > ip0) && Going(s, ip0, 1, k0, x, left, ip, k)
      decreases MAX_TOKENS - ip
    {
      var op := Peek(s, ip);
      if op != Plus && op != Minus { break; }
      ghost var before, at, k1 := left, ip, k;
      var right;
      right, ip, k := EvalMul(s, ip + 1, k);
      var ln, rn := NumberOf(left), NumberOf(right);
      SumIs(op, ln, rn);
      left := Num(if op == Plus then Wrap(ln as int + rn as int) else Wrap(ln as int - rn as int));
      x := GoingOn(s, ip0, 1, k0, x, before, at, k1, right, ip, k);
    }
    GoingEnds(s, ip0, 1, k0, x, left, ip, k);
  }

  method EvalMul(s: Script, ip0: nat, k0: nat) returns (left: Value, ip: nat, k: nat)
    requires Sized(s) && ip0 <= MAX_TOKENS
    ensures ip0 <= ip <= MAX_TOKENS && (ip0 < MAX_TOKENS ==> ip > ip0) && Right(s, ip0, 2, k0, left, ip, k)
    decreases MAX_TOKENS - ip0, 1
  {
    hide Right, Going, ParseAt, Eval, Wrap, Apply;
    left, ip, k := EvalAtom(s, ip0, k0);
    ghost var x := GoingStarts(s, ip0, 2, k0, left, ip, k);
    while true
      invariant ip0 <= ip <= MAX_TOKENS && (ip0 < MAX_TOKENS ==> ip > ip0) && Going(s, ip0, 2, k0, x, left, ip, k)
      decreases MAX_TOKENS - ip
    {
      var op := Peek(s, ip);
      if op != Star && op != Slash && op != Mod { break; }
      ghost var before, at, k1 := left, ip, k;
      var right;
      right, ip, k := EvalAtom(s, ip + 1, k);
      var ln, rn := NumberOf(left), NumberOf(right);
      ProductIs(op, ln, rn);
      if op == Star {
        left := Num(Wrap(ln as int * rn as int));
      } else if rn == 0 {
        left := Num(0);
      } else {
        left := Num(if op == Slash then ln / rn else ln % rn);
      }
      x := GoingOn(s, ip0, 2, k0, x, before, at, k1, right, ip, k);
    }
    GoingEnds(s, ip0, 2, k0, x, left, ip, k);
  }

  lemma SumIs(op: Token, a: u64, b: u64)
    requires op == Plus || op == Minus
    ensures Apply(op, a, b) == if op == Plus then Wrap(a as int + b as int) else Wrap(a as int - b as int)
  {
  }

  lemma ProductIs(op: Token, a: u64, b: u64)
    requires op == Star || op == Slash || op == Mod
    ensures Apply(op, a, b) ==
            if op == Star then Wrap(a as int * b as int)
            else if b == 0 then 0
            else if op == Slash then a / b else a % b
  {
    hide Wrap;
  }

  method EvalAtom(s: Script, ip0: nat, k0: nat) returns (v: Value, ip: nat, k: nat)
    requires Sized(s) && ip0 <= MAX_TOKENS
    ensures ip0 <= ip <= MAX_TOKENS && (ip0 < MAX_TOKENS ==> ip > ip0) && Right(s, ip0, 3, k0, v, ip, k)
    decreases MAX_TOKENS - ip0, 0
  {
    hide Right, Wrap;
    SimpleRight(s, ip0, k0);
    k := k0;
    if ip0 >= MAX_TOKENS { return Nil, ip0, k0; }
    var tok := s.tokens[ip0];
    ip := ip0 + 1;
    if tok == Number {
      v := Num(s.values[ip0]);
    } else if tok == String {
      v := Str(s.values[ip0]);
    } else if tok == Ident {
      v := if s.values[ip0] in s.env then s.env[s.values[ip0]] else Nil;
    } else if tok == LParen {
      v, ip, k := EvalCmp(s, ip, k);
      GroupRight(s, ip0, k0, v, ip, k);
      if ip < MAX_TOKENS && s.tokens[ip] == RParen { ip := ip + 1; }
    } else if tok == Minus {
      v, ip, k := EvalAtom(s, ip, k);
      PrefixRight(s, ip0, k0, v, ip, k);
      v := if v.Num? then Num(Wrap(0 - v.n)) else Nil;
    } else if tok == Not {
      v, ip, k := EvalAtom(s, ip, k);
      PrefixRight(s, ip0, k0, v, ip, k);
      v := if v.Num? then Num(if v.n == 0 then 1 else 0) else Nil;
    } else if tok == Input {
      v, k := Num(s.typed(k)), k + 1;
    } else {
      v := Nil;
    }
  }

  /** Atoms of one token. */
  lemma SimpleRight(s: Script, ip: nat, k: nat)
    requires Sized(s) && ip <= MAX_TOKENS
    ensures ip == MAX_TOKENS ==> Right(s, ip, 3, k, Nil, ip, k)
    ensures ip < MAX_TOKENS ==>
      var t, v := s.tokens[ip], s.values[ip];
      if t == Number then Right(s, ip, 3, k, Num(v), ip + 1, k)
      else if t == String then Right(s, ip, 3, k, Str(v), ip + 1, k)
      else if t == Ident then Right(s, ip, 3, k, if v in s.env then s.env[v] else Nil, ip + 1, k)
      else if t == Input then Right(s, ip, 3, k, Num(s.typed(k)), ip + 1, k + 1)
      else t == LParen || t == Minus || t == Not || Right(s, ip, 3, k, Nil, ip + 1, k)
  {
    AtomIs(s, ip);
    hide ParseAt;
  }

  lemma GroupRight(s: Script, ip: nat, k: nat, v: Value, j: nat, k': nat)
    requires Sized(s) && ip < MAX_TOKENS && s.tokens[ip] == LParen && Right(s, ip + 1, 0, k, v, j, k')
    ensures Right(s, ip, 3, k, v, if j < MAX_TOKENS && s.tokens[j] == RParen then j + 1 else j, k')
  {
    AtomIs(s, ip);
    GroupAt(s, ip);
    hide ParseAt, AtomAt;
  }

  lemma PrefixRight(s: Script, ip: nat, k: nat, v: Value, j: nat, k': nat)
    requires Sized(s) && ip < MAX_TOKENS && (s.tokens[ip] == Minus || s.tokens[ip] == Not)
    requires Right(s, ip + 1, 3, k, v, j, k')
    ensures Right(s, ip, 3, k, if s.tokens[ip] == Minus then Negate(v) else Invert(v), j, k')
  {
    AtomIs(s, ip);
    AtomIs(s, ip + 1);
    PrefixAt(s, ip);
    hide ParseAt, AtomAt, Negate, Invert;
  }

  // ----- Expressions as they are written -----

  function Level(x: Expr): nat {
    if x.Binary? then (if Continues(x.op, 0) then 0 else if Continues(x.op, 1) then 1 else 2) else 3
  }

  /** Logic binds as loosely as comparisons, and the remainder as tightly as products. */
  lemma LevelTable(x: Expr, y: Expr)
    ensures Level(Binary(AndAnd, x, y)) == Level(Binary(OrOr, x, y)) == Level(Binary(EqEq, x, y)) == 0
    ensures Level(Binary(Plus, x, y)) == Level(Binary(Minus, x, y)) == 1
    ensures Level(Binary(Mod, x, y)) == Level(Binary(Star, x, y)) == Level(Binary(Slash, x, y)) == 2
    ensures Level(Inverted(x)) == Level(Negated(x)) == Level(Group(x)) == 3
    ensures forall t: Token :: Operator(t) <==>
      t in {EqEq, Ne, Lt, Gt, Le, Ge, AndAnd, OrOr, Plus, Minus, Star, Slash, Mod}
  {
  }

  /** An expression that can be written without more parentheses. */
  predicate Grammatical(x: Expr) {
    match x
    case Nothing => false
    case Group(i) => Grammatical(i)
    case Negated(a) => Grammatical(a) && Level(a) == 3
    case Inverted(a) => Grammatical(a) && Level(a) == 3
    case Binary(op, l, r) =>
      Operator(op) && Grammatical(l) && Grammatical(r) && Level(l) >= Level(x) && Level(r) > Level(x)
    case _ => true
  }

  /** How many tokens it takes. */
  function Length(x: Expr): (n: nat)
    ensures n > 0
  {
    match x
    case Group(i) => Length(i) + 2
    case Negated(a) => Length(a) + 1
    case Inverted(a) => Length(a) + 1
    case Binary(_, l, r) => Length(l) + 1 + Length(r)
    case _ => 1
  }

  predicate Is(s: Script, ip: nat, t: Token, v: u64) {
    ip < |s.tokens| && ip < |s.values| && s.tokens[ip] == t && s.values[ip] == v
  }

  /** The tokens of `x` stand in the array from `ip` on. */
  predicate Stands(s: Script, ip: nat, x: Expr)
    requires Sized(s)
    decreases x
  {
    match x
    case Nothing => false
    case Lit(n) => Is(s, ip, Number, n)
    case Text(start) => Is(s, ip, String, start)
    case Name(start) => Is(s, ip, Ident, start)
    case Ask => Peek(s, ip) == Input
    case Group(i) => Peek(s, ip) == LParen && Stands(s, ip + 1, i) && Peek(s, ip + 1 + Length(i)) == RParen
    case Negated(a) => Peek(s, ip) == Minus && Stands(s, ip + 1, a)
    case Inverted(a) => Peek(s, ip) == Not && Stands(s, ip + 1, a)
    case Binary(op, l, r) =>
      Stands(s, ip, l) && Peek(s, ip + Length(l)) == op && Stands(s, ip + Length(l) + 1, r)
  }

  lemma {:induction false} StandsInside(s: Script, ip: nat, x: Expr)
    requires Sized(s) && Stands(s, ip, x)
    ensures ip + Length(x) <= MAX_TOKENS
    decreases x
  {
    match x
    case Group(i) => StandsInside(s, ip + 1, i);
    case Negated(a) => StandsInside(s, ip + 1, a);
    case Inverted(a) => StandsInside(s, ip + 1, a);
    case Binary(_, l, r) => StandsInside(s, ip + Length(l) + 1, r);
    case _ =>
  }

  /** No operator of a level above `p`. */
  predicate Stops(t: Token, p: nat) { (p < 1 ==> !Continues(t, 1)) && (p < 2 ==> !Continues(t, 2)) }

  lemma OneLevel(t: Token, p: nat)
    requires Continues(t, p)
    ensures Stops(t, p)
  {
  }

  /** What is written is read, and then more operands of the level. */
  lemma {:induction false} ReadsWritten(s: Script, ip: nat, x: Expr, p: nat)
    requires Sized(s) && Grammatical(x) && Stands(s, ip, x) && p <= 3 && p <= Level(x)
    requires Stops(Peek(s, ip + Length(x)), p)
    ensures ip + Length(x) <= MAX_TOKENS
    ensures ParseAt(s, ip, p) ==
            if p == 3 then (x, ip + Length(x)) else TailAt(s, x, ip + Length(x), p)
    decreases x, 4 - p
  {
    hide ParseAt, TailAt, AtomAt, Continues, Level, Stands, Grammatical;
    StandsInside(s, ip, x);
    var end := ip + Length(x);
    if p < Level(x) {
      LevelBound(x);
      StopsMore(s, end, p);
      ReadsWritten(s, ip, x, p + 1);
      LevelIs(s, ip, p);
      if p + 1 < 3 { TailIs(s, x, end, p + 1); }
    } else if p == 3 {
      AtomWritten(s, ip, x);
    } else {
      BinaryWritten(s, ip, x);
      var l, r := x.left, x.right;
      var j := ip + Length(l);
      ReadsWritten(s, ip, l, p);
      StopsMore(s, end, p);
      ReadsWritten(s, j + 1, r, p + 1);
      TailIs(s, l, j, p);
      if p + 1 < 3 { TailIs(s, r, end, p + 1); }
    }
  }

  lemma LevelBound(x: Expr)
    ensures Level(x) <= 3
  {
  }

  lemma StopsMore(s: Script, ip: nat, p: nat)
    requires Sized(s) && p < 3 && Stops(Peek(s, ip), p)
    ensures Stops(Peek(s, ip), p + 1) && (p + 1 < 3 ==> !Continues(Peek(s, ip), p + 1))
  {
    hide Continues;
  }

  /** The parts of an expression with an operator. */
  lemma BinaryWritten(s: Script, ip: nat, x: Expr)
    requires Sized(s) && Grammatical(x) && Stands(s, ip, x) && Level(x) < 3
    ensures x.Binary?
    ensures var l, r, p, j := x.left, x.right, Level(x), ip + Length(x.left);
            && Grammatical(l) && Grammatical(r) && p <= Level(l) && p < Level(r)
            && Length(x) == Length(l) + 1 + Length(r)
            && Stands(s, ip, l) && Stands(s, j + 1, r) && j < MAX_TOKENS && Peek(s, j) == x.op
            && Continues(Peek(s, j), p) && Stops(Peek(s, j), p)
  {
    hide Continues, Stops;
    LevelParts(x);
    StandsInside(s, ip, x);
    hide Level, Operator;
  }

  lemma LevelParts(x: Expr)
    requires Grammatical(x) && Level(x) < 3
    ensures x.Binary? && Continues(x.op, Level(x)) && Stops(x.op, Level(x))
    ensures Grammatical(x.left) && Grammatical(x.right) && Level(x) <= Level(x.left) && Level(x) < Level(x.right)
  {
    BinaryLevel(x);
    OneLevel(x.op, Level(x));
    hide Continues, Stops;
  }

  lemma BinaryLevel(x: Expr)
    requires x.Binary? && Operator(x.op)
    ensures Level(x) < 3 && Continues(x.op, Level(x))
  {
  }

  lemma {:induction false} AtomWritten(s: Script, ip: nat, x: Expr)
    requires Sized(s) && Grammatical(x) && Stands(s, ip, x) && Level(x) == 3
    ensures ip + Length(x) <= MAX_TOKENS && ParseAt(s, ip, 3) == (x, ip + Length(x))
    decreases x, 0
  {
    hide ParseAt, TailAt, AtomAt, Continues, Stops, Stands, Grammatical, Level, Length, Peek;
    StandsInside(s, ip, x);
    AtomIs(s, ip);
    if x.Group? {
      GroupParts(s, ip, x);
      ClosingStops(s, ip + 1 + Length(x.inner), x.inner);
      ReadsWritten(s, ip + 1, x.inner, 0);
      GroupAt(s, ip);
      PeekIs(s, ip + 1 + Length(x.inner));
    } else if x.Negated? || x.Inverted? {
      PrefixParts(s, ip, x);
      AtomWritten(s, ip + 1, x.arg);
      AtomIs(s, ip + 1);
      PrefixAt(s, ip);
    } else {
      SimpleParts(x);
      SimpleAt(s, ip, x);
    }
  }

  lemma PeekIs(s: Script, ip: nat)
    requires Sized(s) && ip < MAX_TOKENS
    ensures Peek(s, ip) == s.tokens[ip]
  {
  }

  lemma SimpleParts(x: Expr)
    requires Grammatical(x) && Level(x) == 3 && !x.Group? && !x.Negated? && !x.Inverted?
    ensures x.Lit? || x.Text? || x.Name? || x.Ask?
  {
    hide Continues;
  }

  lemma GroupParts(s: Script, ip: nat, x: Expr)
    requires Sized(s) && Grammatical(x) && Stands(s, ip, x) && x.Group?
    ensures Grammatical(x.inner) && Stands(s, ip + 1, x.inner) && Length(x) == Length(x.inner) + 2
    ensures Peek(s, ip) == LParen && Peek(s, ip + 1 + Length(x.inner)) == RParen
  {
    hide Continues, Level, Peek;
  }

  lemma PrefixParts(s: Script, ip: nat, x: Expr)
    requires Sized(s) && Grammatical(x) && Stands(s, ip, x) && (x.Negated? || x.Inverted?)
    ensures Grammatical(x.arg) && Level(x.arg) == 3 && Stands(s, ip + 1, x.arg) && Length(x) == Length(x.arg) + 1
    ensures Peek(s, ip) == if x.Negated? then Minus else Not
  {
    hide Continues, Level, Peek;
  }

  lemma SimpleAt(s: Script, ip: nat, x: Expr)
    requires Sized(s) && Stands(s, ip, x) && (x.Lit? || x.Text? || x.Name? || x.Ask?)
    ensures ip < MAX_TOKENS && AtomAt(s, ip) == (x, ip + 1) && Length(x) == 1
  {
    hide ParseAt;
  }

  lemma GroupAt(s: Script, ip: nat)
    requires Sized(s) && Peek(s, ip) == LParen
    ensures ip < MAX_TOKENS
    ensures var (x, j) := ParseAt(s, ip + 1, 0);
            AtomAt(s, ip) == (Group(x), if j < MAX_TOKENS && s.tokens[j] == RParen then j + 1 else j)
  {
    hide ParseAt;
  }

  lemma PrefixAt(s: Script, ip: nat)
    requires Sized(s) && (Peek(s, ip) == Minus || Peek(s, ip) == Not)
    ensures ip < MAX_TOKENS
    ensures var (x, j) := AtomAt(s, ip + 1);
            AtomAt(s, ip) == (if Peek(s, ip) == Minus then Negated(x) else Inverted(x), j)
  {
    hide ParseAt;
  }

  lemma ClosingStops(s: Script, ip: nat, x: Expr)
    requires Sized(s) && Peek(s, ip) == RParen
    ensures Stops(Peek(s, ip), 0) && ip < MAX_TOKENS && TailAt(s, x, ip, 0) == (x, ip)
  {
  }

  lemma ClosingEnds(s: Script, ip: nat, x: Expr)
    requires Sized(s) && ip <= MAX_TOKENS && !Operator(Peek(s, ip))
    ensures TailAt(s, x, ip, 0) == (x, ip)
  {
  }

  /** The interpreter computes the value of every expression, wherever it stands in the token array, and
      stops right behind it. */
  method EvalExpr(s: Script, ip0: nat, k0: nat, ghost x: Expr) returns (v: Value, ip: nat, k: nat)
    requires Sized(s) && Grammatical(x) && Stands(s, ip0, x) && !Operator(Peek(s, ip0 + Length(x)))
    ensures (v, k) == Eval(x, s, k0) && ip == ip0 + Length(x)
  {
    hide Grammatical, Stands, Continues, Eval;
    StandsInside(s, ip0, x);
    ReadsWritten(s, ip0, x, 0);
    ClosingEnds(s, ip0 + Length(x), x);
    v, ip, k := EvalCmp(s, ip0, k0);
  }

  // ----- The expressions that the compiler knows as well -----

  /** The token as the compiler's grammar sees it; kinds outside the shared grammar are TBad. */
  function Shared(t: Token, v: u64): S.Token {
    match t
    case Number => S.TNum(v)
    case EqEq => S.TEqEq
    case Ne => S.TNe
    case Lt => S.TLt
    case Gt => S.TGt
    case Le => S.TLe
    case Ge => S.TGe
    case Plus => S.TPlus
    case Minus => S.TMinus
    case Star => S.TStar
    case Slash => S.TSlash
    case LParen => S.TLParen
    case RParen => S.TRParen
    case _ => S.TBad
  }

  predicate Closed(e: S.Expr) {
    match e
    case Num(_) => true
    case Var(_) => false
    case Paren(i) => Closed(i)
    case Neg(a) => Closed(a)
    case Bin(_, l, r) => Closed(l) && Closed(r)
  }

  function OpToken(op: S.Op): Token {
    match op
    case Eq => EqEq
    case Ne => Ne
    case Lt => Lt
    case Le => Le
    case Gt => Gt
    case Ge => Ge
    case Add => Plus
    case Sub => Minus
    case Mul => Star
    case Div => Slash
  }

  /** The same expression for the interpreter. */
  function Lifted(e: S.Expr): Expr {
    match e
    case Num(n) => Lit(n)
    case Var(_) => Nothing
    case Paren(i) => Group(Lifted(i))
    case Neg(a) => Negated(Lifted(a))
    case Bin(op, l, r) => Binary(OpToken(op), Lifted(l), Lifted(r))
  }

  lemma LiftedOp(op: S.Op, a: u64, b: u64)
    ensures Apply(OpToken(op), a, b) == Sem.Apply(op, a, b)
    ensures Operator(OpToken(op)) && Level(Binary(OpToken(op), Nothing, Nothing)) == S.Prec(op)
  {
  }

  lemma {:induction false} LiftedEval(e: S.Expr, s: Script, k: nat)
    requires Closed(e)
    ensures Eval(Lifted(e), s, k) == (Num(Sem.Eval(e, map[])), k)
    decreases e
  {
    match e
    case Num(_) =>
    case Paren(i) => LiftedEval(i, s, k);
    case Neg(a) => LiftedEval(a, s, k);
    case Bin(op, l, r) =>
      LiftedEval(l, s, k);
      LiftedEval(r, s, k);
      LiftedOp(op, Sem.Eval(l, map[]), Sem.Eval(r, map[]));
      hide Apply, Sem.Apply;
  }

  lemma LevelOf(op: Token, x: Expr, y: Expr)
    ensures Level(Binary(op, x, y)) == Level(Binary(op, Nothing, Nothing))
  {
  }

  lemma {:induction false} LiftedForm(e: S.Expr)
    requires Closed(e) && S.Grammatical(e)
    ensures Grammatical(Lifted(e)) && Level(Lifted(e)) == S.Level(e) && Length(Lifted(e)) == |S.Tokens(e)|
    decreases e
  {
    hide Continues, OpToken, S.OpToken, S.Prec, Operator;
    match e
    case Num(_) =>
    case Paren(i) => LiftedForm(i);
    case Neg(a) => LiftedForm(a);
    case Bin(op, l, r) =>
      LiftedForm(l);
      LiftedForm(r);
      LiftedOp(op, 0, 0);
      LevelOf(OpToken(op), Lifted(l), Lifted(r));
  }

  /** The token array holds `e` from `ip` on. */
  ghost predicate Written(s: Script, ip: nat, ts: seq<S.Token>) {
    && Sized(s) && ip + |ts| <= MAX_TOKENS
    && forall i :: 0 <= i < |ts| ==> Shared(s.tokens[ip + i], s.values[ip + i]) == ts[i]
  }

  lemma WrittenSplit(s: Script, ip: nat, a: seq<S.Token>, b: seq<S.Token>)
    requires Written(s, ip, a + b)
    ensures Sized(s) && Written(s, ip, a) && Written(s, ip + |a|, b)
  {
    hide Shared;
    forall i | 0 <= i < |a| ensures Shared(s.tokens[ip + i], s.values[ip + i]) == a[i] {
      assert (a + b)[i] == a[i];
    }
    forall i | 0 <= i < |b| ensures Shared(s.tokens[ip + |a| + i], s.values[ip + |a| + i]) == b[i] {
      assert (a + b)[|a| + i] == b[i] && ip + |a| + i == ip + (|a| + i);
    }
  }

  lemma WrittenOne(s: Script, ip: nat, t: S.Token)
    requires Written(s, ip, [t])
    ensures Sized(s) && ip < MAX_TOKENS && Shared(s.tokens[ip], s.values[ip]) == t
  {
    hide Shared;
    assert Shared(s.tokens[ip + 0], s.values[ip + 0]) == [t][0];
  }

  lemma SharedIs(t: Token, v: u64, op: S.Op)
    ensures Shared(t, v) == S.TLParen <==> t == LParen
    ensures Shared(t, v) == S.TRParen <==> t == RParen
    ensures Shared(t, v) == S.TMinus <==> t == Minus
    ensures Shared(t, v).TNum? ==> t == Number
    ensures Shared(t, v) == S.OpToken(op) ==> t == OpToken(op)
  {
  }

  lemma {:induction false} LiftedStands(s: Script, ip: nat, e: S.Expr)
    requires Closed(e) && S.Grammatical(e) && Written(s, ip, S.Tokens(e))
    ensures Sized(s) && Stands(s, ip, Lifted(e))
    decreases e
  {
    hide Written, Shared, S.Tokens, Length, OpToken, Stands, S.Prec, S.Level, Grammatical, Level;
    match e
    case Num(n) =>
      NumberTokens(n);
      WrittenOne(s, ip, S.TNum(n));
      SharedNumber(s.tokens[ip], s.values[ip], n);
      StandsNumber(s, ip, n);
    case Paren(i) =>
      ParenWritten(s, ip, i);
      LiftedStands(s, ip + 1, i);
      LiftedForm(i);
      StandsPart(s, ip, Group(Lifted(i)));
    case Neg(a) =>
      NegWritten(s, ip, a);
      LiftedStands(s, ip + 1, a);
      StandsPart(s, ip, Negated(Lifted(a)));
    case Bin(op, l, r) =>
      BinWritten(s, ip, op, l, r);
      LiftedStands(s, ip, l);
      LiftedStands(s, ip + |S.Tokens(l)| + 1, r);
      LiftedForm(l);
      StandsPart(s, ip, Binary(OpToken(op), Lifted(l), Lifted(r)));
  }

  lemma StandsNumber(s: Script, ip: nat, n: u64)
    requires Sized(s) && Is(s, ip, Number, n)
    ensures Stands(s, ip, Lit(n))
  {
  }

  lemma StandsPart(s: Script, ip: nat, x: Expr)
    requires Sized(s) && (x.Group? || x.Negated? || x.Binary?)
    requires x.Group? ==>
      Peek(s, ip) == LParen && Stands(s, ip + 1, x.inner) && Peek(s, ip + 1 + Length(x.inner)) == RParen
    requires x.Negated? ==> Peek(s, ip) == Minus && Stands(s, ip + 1, x.arg)
    requires x.Binary? ==>
      Stands(s, ip, x.left) && Peek(s, ip + Length(x.left)) == x.op && Stands(s, ip + Length(x.left) + 1, x.right)
    ensures Stands(s, ip, x)
  {
    hide Peek;
  }

  lemma NumberTokens(n: u64)
    ensures S.Tokens(S.Num(n)) == [S.TNum(n)]
  {
  }

  lemma ParenTokens(i: S.Expr)
    ensures S.Tokens(S.Paren(i)) == [S.TLParen] + (S.Tokens(i) + [S.TRParen])
  {
  }

  lemma ParenWritten(s: Script, ip: nat, i: S.Expr)
    requires Written(s, ip, S.Tokens(S.Paren(i)))
    ensures Sized(s) && Written(s, ip + 1, S.Tokens(i))
    ensures Peek(s, ip) == LParen && Peek(s, ip + 1 + |S.Tokens(i)|) == RParen
  {
    hide Written, Shared, S.Tokens;
    ParenTokens(i);
    WrittenSplit(s, ip, [S.TLParen], S.Tokens(i) + [S.TRParen]);
    WrittenSplit(s, ip + 1, S.Tokens(i), [S.TRParen]);
    var j := ip + 1 + |S.Tokens(i)|;
    WrittenOne(s, ip, S.TLParen);
    WrittenOne(s, j, S.TRParen);
    SharedIs(s.tokens[ip], s.values[ip], S.Add);
    SharedIs(s.tokens[j], s.values[j], S.Add);
  }

  lemma NegWritten(s: Script, ip: nat, a: S.Expr)
    requires Written(s, ip, S.Tokens(S.Neg(a)))
    ensures Sized(s) && Written(s, ip + 1, S.Tokens(a)) && Peek(s, ip) == Minus
  {
    hide Written, Shared;
    WrittenSplit(s, ip, [S.TMinus], S.Tokens(a));
    WrittenOne(s, ip, S.TMinus);
    SharedIs(s.tokens[ip], s.values[ip], S.Add);
  }

  lemma BinTokens(op: S.Op, l: S.Expr, r: S.Expr)
    ensures S.Tokens(S.Bin(op, l, r)) == S.Tokens(l) + ([S.OpToken(op)] + S.Tokens(r))
  {
    hide S.OpToken;
  }

  lemma BinWritten(s: Script, ip: nat, op: S.Op, l: S.Expr, r: S.Expr)
    requires Written(s, ip, S.Tokens(S.Bin(op, l, r)))
    ensures var j := ip + |S.Tokens(l)|;
            Sized(s) && Written(s, ip, S.Tokens(l)) && Written(s, j + 1, S.Tokens(r)) && Peek(s, j) == OpToken(op)
  {
    hide Written, Shared;
    var j := ip + |S.Tokens(l)|;
    BinTokens(op, l, r);
    hide S.Tokens, S.OpToken, OpToken;
    WrittenSplit(s, ip, S.Tokens(l), [S.OpToken(op)] + S.Tokens(r));
    WrittenSplit(s, j, [S.OpToken(op)], S.Tokens(r));
    WrittenOne(s, j, S.OpToken(op));
    SharedIs(s.tokens[j], s.values[j], op);
  }

  lemma SharedNumber(t: Token, v: u64, n: u64)
    requires Shared(t, v) == S.TNum(n)
    ensures t == Number && v == n
  {
  }

  /** A closed expression of the shared grammar, with no operator of the interpreter behind it. */
  ghost predicate Holds(s: Script, ip: nat, e: S.Expr) {
    Written(s, ip, S.Tokens(e)) && !Operator(Peek(s, ip + |S.Tokens(e)|))
  }

  /** On the shared grammar the interpreter computes the value that the compiler's semantics gives. */
  method EvalShared(s: Script, ip0: nat, k0: nat, ghost e: S.Expr) returns (v: Value, ip: nat)
    requires S.Grammatical(e) && Closed(e) && Holds(s, ip0, e)
    ensures v == Num(Sem.Eval(e, map[])) && ip == ip0 + |S.Tokens(e)|
  {
    LiftedForm(e);
    LiftedStands(s, ip0, e);
    LiftedEval(e, s, k0);
    hide *;
    var k;
    v, ip, k := EvalExpr(s, ip0, k0, Lifted(e));
  }

  /** A closed expression does not depend on the store. */
  lemma {:induction false} ClosedEval(e: S.Expr, st: Sem.Store)
    requires Closed(e)
    ensures Sem.Eval(e, st) == Sem.Eval(e, map[])
  {
    match e
    case Num(_) =>
    case Paren(i) => ClosedEval(i, st);
    case Neg(a) => ClosedEval(a, st);
    case Bin(_, l, r) => ClosedEval(l, st); ClosedEval(r, st);
  }
}
