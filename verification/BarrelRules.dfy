/** The meaning of statements by rules, without fuel: what a statement comes to, given what its parts
    come to. Each rule holds in both directions. */
module BarrelRules {
  import opened BarrelSyntax
  import opened BarrelSemantics
  import M = Machine

  /** The statement ends, and this is what it has done. */
  ghost predicate Does(s: Stmt, st: Store, inLoop: bool, r: Result) {
    exists fuel: nat :: DoesIn(s, st, inLoop, r, fuel)
  }

  predicate DoesIn(s: Stmt, st: Store, inLoop: bool, r: Result, fuel: nat) {
    Exec(s, st, inLoop, fuel) == r && r.how != OutOfFuel
  }

  ghost predicate DoesB(b: Block, st: Store, inLoop: bool, r: Result) {
    exists fuel: nat :: DoesInB(b, st, inLoop, r, fuel)
  }

  predicate DoesInB(b: Block, st: Store, inLoop: bool, r: Result, fuel: nat) {
    ExecB(b, st, inLoop, fuel) == r && r.how != OutOfFuel
  }

  /** First one, then the other. */
  function After(r1: Result, r2: Result): Result { r2.(out := r1.out + r2.out) }

  lemma LaterToo(s: Stmt, st: Store, inLoop: bool, r: Result, f: nat, g: nat)
    requires DoesIn(s, st, inLoop, r, f) && f <= g
    ensures DoesIn(s, st, inLoop, r, g)
  {
    hide Exec;
    MoreFuel(s, st, inLoop, f, g);
  }

  lemma LaterTooB(b: Block, st: Store, inLoop: bool, r: Result, f: nat, g: nat)
    requires DoesInB(b, st, inLoop, r, f) && f <= g
    ensures DoesInB(b, st, inLoop, r, g)
  {
    hide ExecB;
    MoreFuelB(b, st, inLoop, f, g);
  }

  // ----- Statements that just happen -----

  lemma EmptyRule(st: Store, inLoop: bool, r: Result)
    ensures Does(Empty, st, inLoop, r) <==> r == Result(st, [], Normal)
  {
    if r == Result(st, [], Normal) { assert DoesIn(Empty, st, inLoop, r, 0); }
  }

  lemma LetRule(x: Name, e: Expr, st: Store, inLoop: bool, r: Result)
    ensures Does(Let(x, e), st, inLoop, r) <==> r == Result(st[x := Eval(e, st)], [], Normal)
  {
    if r == Result(st[x := Eval(e, st)], [], Normal) { assert DoesIn(Let(x, e), st, inLoop, r, 0); }
  }

  lemma PrintRule(e: Expr, newline: bool, st: Store, inLoop: bool, r: Result)
    ensures Does(Print(e, newline), st, inLoop, r) <==> r == Result(st, [M.Print(Eval(e, st), newline)], Normal)
  {
    if r == Result(st, [M.Print(Eval(e, st), newline)], Normal) {
      assert DoesIn(Print(e, newline), st, inLoop, r, 0);
    }
  }

  lemma BreakRule(st: Store, inLoop: bool, r: Result)
    ensures Does(Break, st, inLoop, r) <==> r == Result(st, [], if inLoop then Broke else Normal)
  {
    if r == Result(st, [], if inLoop then Broke else Normal) { assert DoesIn(Break, st, inLoop, r, 0); }
  }

  // ----- Conditionals -----

  lemma IfElseRule(c: Expr, t: Block, e: Block, st: Store, inLoop: bool, r: Result)
    ensures Does(IfElse(c, t, e), st, inLoop, r) <==> DoesB(if Eval(c, st) != 0 then t else e, st, inLoop, r)
  {
    hide ExecB, Eval;
    var b := if Eval(c, st) != 0 then t else e;
    if Does(IfElse(c, t, e), st, inLoop, r) {
      var f: nat :| DoesIn(IfElse(c, t, e), st, inLoop, r, f);
      assert DoesInB(b, st, inLoop, r, f);
    }
    if DoesB(b, st, inLoop, r) {
      var f: nat :| DoesInB(b, st, inLoop, r, f);
      assert DoesIn(IfElse(c, t, e), st, inLoop, r, f);
    }
  }

  lemma IfRule(c: Expr, t: Block, st: Store, inLoop: bool, r: Result)
    ensures Does(If(c, t), st, inLoop, r) <==> DoesB(if Eval(c, st) != 0 then t else Done, st, inLoop, r)
  {
    hide Eval;
    var b := if Eval(c, st) != 0 then t else Done;
    if Does(If(c, t), st, inLoop, r) {
      var f: nat :| DoesIn(If(c, t), st, inLoop, r, f);
      assert DoesInB(b, st, inLoop, r, f);
    }
    if DoesB(b, st, inLoop, r) {
      var f: nat :| DoesInB(b, st, inLoop, r, f);
      assert DoesIn(If(c, t), st, inLoop, r, f);
    }
  }

  // ----- Loops -----

  /** One more round, after a body that came to `r1`. */
  ghost predicate Continues(s: Stmt, r1: Result, inLoop: bool, r: Result) {
    if r1.how == Broke then r == r1.(how := Normal)
    else exists r2 :: Does(s, r1.store, inLoop, r2) && r == After(r1, r2)
  }

  lemma RoundIs(s: Stmt, b: Block, st: Store, inLoop: bool, f: nat)
    requires s == Loop(b) || (s.While? && s.body == b && Eval(s.c, st) != 0)
    ensures f == 0 ==> Exec(s, st, inLoop, f).how == OutOfFuel
    ensures f > 0 ==>
      var r1 := ExecB(b, st, true, f);
      Exec(s, st, inLoop, f) ==
        if r1.how == OutOfFuel then r1
        else if r1.how == Broke then r1.(how := Normal)
        else After(r1, Exec(s, r1.store, inLoop, f - 1))
  {
    hide ExecB, Eval;
  }

  lemma RoundRule(s: Stmt, b: Block, st: Store, inLoop: bool, r: Result)
    requires s == Loop(b) || (s.While? && s.body == b && Eval(s.c, st) != 0)
    ensures Does(s, st, inLoop, r) <==> exists r1 :: DoesB(b, st, true, r1) && Continues(s, r1, inLoop, r)
  {
    hide ExecB, Exec, Eval;
    if Does(s, st, inLoop, r) {
      var f: nat :| DoesIn(s, st, inLoop, r, f);
      RoundIs(s, b, st, inLoop, f);
      var r1 := ExecB(b, st, true, f);
      assert DoesInB(b, st, true, r1, f);
      if r1.how == Normal {
        var r2 := Exec(s, r1.store, inLoop, f - 1);
        assert DoesIn(s, r1.store, inLoop, r2, f - 1);
      }
      assert Continues(s, r1, inLoop, r);
    }
    if r1 :| DoesB(b, st, true, r1) && Continues(s, r1, inLoop, r) {
      var f: nat :| DoesInB(b, st, true, r1, f);
      RoundBack(s, b, st, inLoop, r, r1, f);
    }
  }

  lemma RoundBack(s: Stmt, b: Block, st: Store, inLoop: bool, r: Result, r1: Result, f: nat)
    requires s == Loop(b) || (s.While? && s.body == b && Eval(s.c, st) != 0)
    requires DoesInB(b, st, true, r1, f) && Continues(s, r1, inLoop, r)
    ensures Does(s, st, inLoop, r)
  {
    hide ExecB, Exec, Eval;
    if r1.how == Broke {
      LaterTooB(b, st, true, r1, f, f + 1);
      RoundIs(s, b, st, inLoop, f + 1);
      assert DoesIn(s, st, inLoop, r, f + 1);
    } else {
      var r2 :| Does(s, r1.store, inLoop, r2) && r == After(r1, r2);
      var g: nat :| DoesIn(s, r1.store, inLoop, r2, g);
      var h := f + g + 1;
      LaterTooB(b, st, true, r1, f, h);
      LaterToo(s, r1.store, inLoop, r2, g, h - 1);
      RoundIs(s, b, st, inLoop, h);
      assert DoesIn(s, st, inLoop, r, h);
    }
  }

  /** A while loop ends when its condition is zero, and otherwise runs its body and starts over, unless
      the body broke out of it. */
  lemma WhileRule(c: Expr, b: Block, st: Store, inLoop: bool, r: Result)
    ensures Does(While(c, b), st, inLoop, r) <==>
            if Eval(c, st) == 0 then r == Result(st, [], Normal)
            else exists r1 :: DoesB(b, st, true, r1) && Continues(While(c, b), r1, inLoop, r)
  {
    hide ExecB, Eval, Continues;
    if Eval(c, st) != 0 {
      RoundRule(While(c, b), b, st, inLoop, r);
    } else if r == Result(st, [], Normal) {
      assert DoesIn(While(c, b), st, inLoop, r, 1);
    }
  }

  lemma LoopRule(b: Block, st: Store, inLoop: bool, r: Result)
    ensures Does(Loop(b), st, inLoop, r) <==> exists r1 :: DoesB(b, st, true, r1) && Continues(Loop(b), r1, inLoop, r)
  {
    RoundRule(Loop(b), b, st, inLoop, r);
  }

  // ----- Sequences -----

  lemma DoneRule(st: Store, inLoop: bool, r: Result)
    ensures DoesB(Done, st, inLoop, r) <==> r == Result(st, [], Normal)
  {
    if r == Result(st, [], Normal) { assert DoesInB(Done, st, inLoop, r, 0); }
  }

  /** What is behind a statement happens if it ended normally. */
  ghost predicate GoesOn(rest: Block, r1: Result, inLoop: bool, r: Result) {
    if r1.how != Normal then r == r1
    else exists r2 :: DoesB(rest, r1.store, inLoop, r2) && r == After(r1, r2)
  }

  lemma ThenIs(s: Stmt, rest: Block, st: Store, inLoop: bool, f: nat)
    ensures var r1 := Exec(s, st, inLoop, f);
            ExecB(Then(s, rest), st, inLoop, f) ==
              if r1.how != Normal then r1 else After(r1, ExecB(rest, r1.store, inLoop, f))
  {
    hide Exec;
  }

  lemma ThenRule(s: Stmt, rest: Block, st: Store, inLoop: bool, r: Result)
    ensures DoesB(Then(s, rest), st, inLoop, r) <==> exists r1 :: Does(s, st, inLoop, r1) && GoesOn(rest, r1, inLoop, r)
  {
    hide Exec, ExecB;
    if DoesB(Then(s, rest), st, inLoop, r) {
      var f: nat :| DoesInB(Then(s, rest), st, inLoop, r, f);
      ThenIs(s, rest, st, inLoop, f);
      var r1 := Exec(s, st, inLoop, f);
      assert DoesIn(s, st, inLoop, r1, f);
      if r1.how == Normal {
        var r2 := ExecB(rest, r1.store, inLoop, f);
        assert DoesInB(rest, r1.store, inLoop, r2, f);
      }
      assert GoesOn(rest, r1, inLoop, r);
    }
    if r1 :| Does(s, st, inLoop, r1) && GoesOn(rest, r1, inLoop, r) {
      var f: nat :| DoesIn(s, st, inLoop, r1, f);
      ThenBack(s, rest, st, inLoop, r, r1, f);
    }
  }

  lemma ThenBack(s: Stmt, rest: Block, st: Store, inLoop: bool, r: Result, r1: Result, f: nat)
    requires DoesIn(s, st, inLoop, r1, f) && GoesOn(rest, r1, inLoop, r)
    ensures DoesB(Then(s, rest), st, inLoop, r)
  {
    hide Exec, ExecB;
    if r1.how != Normal {
      ThenIs(s, rest, st, inLoop, f);
      assert DoesInB(Then(s, rest), st, inLoop, r, f);
    } else {
      var r2 :| DoesB(rest, r1.store, inLoop, r2) && r == After(r1, r2);
      var g: nat :| DoesInB(rest, r1.store, inLoop, r2, g);
      LaterToo(s, st, inLoop, r1, f, f + g);
      LaterTooB(rest, r1.store, inLoop, r2, g, f + g);
      ThenIs(s, rest, st, inLoop, f + g);
      assert DoesInB(Then(s, rest), st, inLoop, r, f + g);
    }
  }

  /** A program ends having printed `out` exactly if the rules say so. */
  lemma ProgramRule(b: Block, st: Store, out: Trace)
    ensures Terminates(b, st, out) <==> exists r :: DoesB(b, st, false, r) && r.out == out
  {
    hide ExecB;
    if Terminates(b, st, out) {
      var f: nat :| ExecB(b, st, false, f).how == Normal && ExecB(b, st, false, f).out == out;
      assert DoesInB(b, st, false, ExecB(b, st, false, f), f);
    }
    if r :| DoesB(b, st, false, r) && r.out == out {
      var f: nat :| DoesInB(b, st, false, r, f);
      NoStrayBreakB(b, st, f);
    }
  }
}
