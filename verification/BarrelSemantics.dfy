/** What a Barrel program means: unsigned 64-bit wrapping arithmetic, a division by zero
    that yields zero, and a trace of printed numbers. */
module BarrelSemantics {
  import opened Words
  import opened BarrelSyntax
  import M = Machine

  type Store = map<Name, u64>
  type Trace = seq<M.Print>

  function Get(st: Store, x: Name): u64 { if x in st then st[x] else 0 }

  function Apply(op: Op, a: u64, b: u64): u64 {
    match op
    case Eq => M.Bit(a == b)
    case Ne => M.Bit(a != b)
    case Lt => M.Bit(a < b)
    case Le => M.Bit(a <= b)
    case Gt => M.Bit(a > b)
    case Ge => M.Bit(a >= b)
    case Add => Wrap(a + b)
    case Sub => Wrap(a - b)
    case Mul => Wrap(a * b)
    case Div => if b == 0 then 0 else a / b
  }

  function Eval(e: Expr, st: Store): u64 {
    match e
    case Num(n) => n
    case Var(x) => Get(st, x)
    case Paren(i) => Eval(i, st)
    case Neg(a) => Wrap(0 - Eval(a, st))
    case Bin(op, l, r) => Apply(op, Eval(l, st), Eval(r, st))
  }

  /** How an execution with bounded fuel ended. */
  datatype End = Normal | Broke | OutOfFuel

  datatype Result = Result(store: Store, out: Trace, how: End)

  /** Execution in which every loop nest may start at most `fuel` iterations at a time.
      What was printed before the fuel ran out is kept.  A `break` outside any loop does nothing. */
  function Exec(s: Stmt, st: Store, inLoop: bool, fuel: nat): Result
    decreases fuel, s, 1
  {
    match s
    case Empty => Result(st, [], Normal)
    case Let(x, e) => Result(st[x := Eval(e, st)], [], Normal)
    case Print(e, nl) => Result(st, [M.Print(Eval(e, st), nl)], Normal)
    case If(c, t) => if Eval(c, st) != 0 then ExecB(t, st, inLoop, fuel) else Result(st, [], Normal)
    case IfElse(c, t, e) => if Eval(c, st) != 0 then ExecB(t, st, inLoop, fuel) else ExecB(e, st, inLoop, fuel)
    case While(c, b) =>
      if fuel == 0 then Result(st, [], OutOfFuel)
      else if Eval(c, st) == 0 then Result(st, [], Normal)
      else Again(s, ExecB(b, st, true, fuel), inLoop, fuel)
    case Loop(b) =>
      if fuel == 0 then Result(st, [], OutOfFuel)
      else Again(s, ExecB(b, st, true, fuel), inLoop, fuel)
    case Break => Result(st, [], if inLoop then Broke else Normal)
  }

  /** After the loop body ended as `r`: leave the loop, or start over. */
  function Again(s: Stmt, r: Result, inLoop: bool, fuel: nat): Result
    requires fuel > 0
    decreases fuel, s, 0
  {
    match r.how
    case OutOfFuel => r
    case Broke => r.(how := Normal)
    case Normal =>
      var next := Exec(s, r.store, inLoop, fuel - 1);
      next.(out := r.out + next.out)
  }

  function ExecB(b: Block, st: Store, inLoop: bool, fuel: nat): Result
    decreases fuel, b, 1
  {
    match b
    case Done => Result(st, [], Normal)
    case Then(s, rest) =>
      var r := Exec(s, st, inLoop, fuel);
      if r.how != Normal then r
      else
        var next := ExecB(rest, r.store, inLoop, fuel);
        next.(out := r.out + next.out)
  }

  /** The program ends, having printed `out`. */
  ghost predicate Terminates(b: Block, st: Store, out: Trace) {
    exists fuel: nat :: ExecB(b, st, false, fuel).how == Normal && ExecB(b, st, false, fuel).out == out
  }

  ghost predicate Diverges(b: Block, st: Store) {
    forall fuel: nat :: ExecB(b, st, false, fuel).how == OutOfFuel
  }

  /** More fuel keeps a finished result and only extends the output of an unfinished one. */
  ghost predicate Extends(r: Result, r': Result) {
    r.out <= r'.out && (r.how != OutOfFuel ==> r' == r)
  }

  lemma {:induction false} MoreFuel(s: Stmt, st: Store, inLoop: bool, f: nat, g: nat)
    requires f <= g
    ensures Extends(Exec(s, st, inLoop, f), Exec(s, st, inLoop, g))
    decreases f, s, 1
  {
    match s
    case If(c, t) => MoreFuelB(t, st, inLoop, f, g);
    case IfElse(c, t, e) => MoreFuelB(t, st, inLoop, f, g); MoreFuelB(e, st, inLoop, f, g);
    case While(c, b) =>
      if f > 0 && Eval(c, st) != 0 {
        MoreFuelB(b, st, true, f, g);
        MoreFuelAgain(s, ExecB(b, st, true, f), ExecB(b, st, true, g), inLoop, f, g);
      }
    case Loop(b) =>
      if f > 0 {
        MoreFuelB(b, st, true, f, g);
        MoreFuelAgain(s, ExecB(b, st, true, f), ExecB(b, st, true, g), inLoop, f, g);
      }
    case _ =>
  }

  lemma {:induction false} MoreFuelAgain(s: Stmt, r: Result, r': Result, inLoop: bool, f: nat, g: nat)
    requires 0 < f <= g && Extends(r, r')
    ensures Extends(Again(s, r, inLoop, f), Again(s, r', inLoop, g))
    decreases f, s, 0
  {
    hide Exec;
    if r.how == Normal {
      MoreFuel(s, r.store, inLoop, f - 1, g - 1);
    }
  }

  lemma {:induction false} MoreFuelB(b: Block, st: Store, inLoop: bool, f: nat, g: nat)
    requires f <= g
    ensures Extends(ExecB(b, st, inLoop, f), ExecB(b, st, inLoop, g))
    decreases f, b, 1
  {
    hide Exec;
    match b
    case Done =>
    case Then(s, rest) =>
      MoreFuel(s, st, inLoop, f, g);
      var r := Exec(s, st, inLoop, f);
      if r.how == Normal {
        MoreFuelB(rest, r.store, inLoop, f, g);
      }
  }

  /** Outside loops an execution never ends with a pending break. */
  lemma {:induction false} NoStrayBreak(s: Stmt, st: Store, fuel: nat)
    ensures Exec(s, st, false, fuel).how != Broke
    decreases fuel, s, 1
  {
    match s
    case If(c, t) => NoStrayBreakB(t, st, fuel);
    case IfElse(c, t, e) => NoStrayBreakB(t, st, fuel); NoStrayBreakB(e, st, fuel);
    case While(c, b) =>
      if fuel > 0 { NoStrayBreak(s, ExecB(b, st, true, fuel).store, fuel - 1); }
    case Loop(b) =>
      if fuel > 0 { NoStrayBreak(s, ExecB(b, st, true, fuel).store, fuel - 1); }
    case _ =>
  }

  lemma {:induction false} NoStrayBreakB(b: Block, st: Store, fuel: nat)
    ensures ExecB(b, st, false, fuel).how != Broke
    decreases fuel, b, 1
  {
    match b
    case Done =>
    case Then(s, rest) =>
      NoStrayBreak(s, st, fuel);
      NoStrayBreakB(rest, Exec(s, st, false, fuel).store, fuel);
  }

  /** A program either ends with one definite output or runs forever. */
  lemma TerminatesOrDiverges(b: Block, st: Store, out: Trace, out': Trace)
    ensures Diverges(b, st) <==> forall o :: !Terminates(b, st, o)
    ensures Terminates(b, st, out) && Terminates(b, st, out') ==> out == out'
  {
    hide ExecB;
    if !Diverges(b, st) {
      var fuel: nat :| ExecB(b, st, false, fuel).how != OutOfFuel;
      NoStrayBreakB(b, st, fuel);
      assert Terminates(b, st, ExecB(b, st, false, fuel).out);
    }
    if Terminates(b, st, out) && Terminates(b, st, out') {
      var f: nat :| ExecB(b, st, false, f).how == Normal && ExecB(b, st, false, f).out == out;
      var g: nat :| ExecB(b, st, false, g).how == Normal && ExecB(b, st, false, g).out == out';
      if f <= g { MoreFuelB(b, st, false, f, g); } else { MoreFuelB(b, st, false, g, f); }
    }
  }
}
