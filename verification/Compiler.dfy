/** The one-pass compiler: a recursive-descent parser that emits machine code as it goes. */
module Compiler {
  import opened Words
  import opened X86
  import opened Machine
  import S = BarrelSyntax
  import opened BarrelLexer
  import opened Codegen
  import opened ProgramCorrectness
  import opened CompilerSpec
  import opened CompilerStmts
  import opened CompilerPass
  import opened CompilerErrors

  const ELF_BUF_SIZE := 4096
  const CODE_OFF := 120

  datatype Tk =
    | Eof | Num | Ident | Print | Println | Let | If | Else | While | Loop | Break
    | Eq | EqEq | Ne | Lt | Le | Gt | Ge | Plus | Minus | Star | Slash
    | LParen | RParen | LBrace | RBrace | Semi

  /** The token a kind stands for, with the payload of numbers and names. */
  function TokenOf(tk: Tk, num: u64, name: S.Name): S.Token
    requires tk != Eof
  {
    match tk
    case Num => S.TNum(num)
    case Ident => S.TIdent(name)
    case Print => S.TPrint
    case Println => S.TPrintln
    case Let => S.TLet
    case If => S.TIf
    case Else => S.TElse
    case While => S.TWhile
    case Loop => S.TLoop
    case Break => S.TBreak
    case Eq => S.TEq
    case EqEq => S.TEqEq
    case Ne => S.TNe
    case Lt => S.TLt
    case Le => S.TLe
    case Gt => S.TGt
    case Ge => S.TGe
    case Plus => S.TPlus
    case Minus => S.TMinus
    case Star => S.TStar
    case Slash => S.TSlash
    case LParen => S.TLParen
    case RParen => S.TRParen
    case LBrace => S.TLBrace
    case RBrace => S.TRBrace
    case Semi => S.TSemi
  }

  predicate Plain(tk: Tk) { tk != Eof && tk != Num && tk != Ident }

  function PlainToken(tk: Tk): S.Token
    requires Plain(tk)
  {
    TokenOf(tk, 0, [])
  }

  /** Names as slices of the source. */
  type Slices = seq<(nat, nat)>

  predicate SlicesOk(src: Source, vars: Slices) {
    forall i :: 0 <= i < |vars| ==> vars[i].0 + vars[i].1 <= |src|
  }

  function Table(src: Source, vars: Slices): (t: Vars)
    requires SlicesOk(src, vars)
    ensures |t| == |vars|
    ensures forall i :: 0 <= i < |vars| ==> t[i] == src[vars[i].0..vars[i].0 + vars[i].1]
  {
    seq(|vars|, i requires 0 <= i < |vars| => src[vars[i].0..vars[i].0 + vars[i].1])
  }

  lemma TableAppend(src: Source, vars: Slices, off: nat, len: nat)
    requires SlicesOk(src, vars) && off + len <= |src|
    ensures SlicesOk(src, vars + [(off, len)])
    ensures Table(src, vars + [(off, len)]) == Table(src, vars) + [src[off..off + len]]
  {
  }

  /** The slot of `x` is its first position. */
  lemma {:induction false} SlotFirst(vars: Vars, x: S.Name, i: nat)
    requires i < |vars| && vars[i] == x && forall j :: 0 <= j < i ==> vars[j] != x
    ensures SlotOf(vars, x) == i
  {
    if i > 0 {
      assert vars[0] != x && vars[1..][i - 1] == x;
      SlotFirst(vars[1..], x, i - 1);
    }
  }

  function Keyword(name: S.Name): (t: Tk)
    ensures t != Eof
  {
    if name == [112, 114, 105, 110, 116] then Tk.Print
    else if name == [112, 114, 105, 110, 116, 108, 110] then Println
    else if name == [108, 101, 116] then Let
    else if name == [105, 102] then If
    else if name == [101, 108, 115, 101] then Else
    else if name == [119, 104, 105, 108, 101] then While
    else if name == [108, 111, 111, 112] then Loop
    else if name == [98, 114, 101, 97, 107] then Break
    else Ident
  }

  lemma KeywordToken(name: S.Name, num: u64)
    ensures TokenOf(Keyword(name), num, name) == Word(name)
  {
  }

  /** The character `c` is an operator that the following `=` belongs to. */
  predicate Doubled(c: byte, d: byte) { d == 61 && (c == 61 || c == 33 || c == 60 || c == 62) }

  /** The kind of a punctuation token, Eof for a character that starts none. */
  function Symbol(c: byte, d: byte): (t: Tk)
    ensures t == Eof || Plain(t)
  {
    match c
    case 61 => if d == 61 then EqEq else Eq
    case 33 => if d == 61 then Ne else Eof
    case 60 => if d == 61 then Le else Lt
    case 62 => if d == 61 then Ge else Gt
    case 43 => Plus
    case 45 => Minus
    case 42 => Star
    case 47 => Slash
    case 40 => LParen
    case 41 => RParen
    case 123 => LBrace
    case 125 => RBrace
    case 59 => Semi
    case _ => Eof
  }

  lemma SymbolToken(src: Source, pos: nat)
    requires pos < |src| && src[pos] != 0 && !IsDigit(src[pos]) && !IsLetter(src[pos])
    ensures var c, d := src[pos], Peek(src, pos + 1);
            TokenAt(src, pos) ==
              (if Symbol(c, d) == Eof then S.TBad else PlainToken(Symbol(c, d)), pos + if Doubled(c, d) then 2 else 1)
  {
    hide DigitsEnd, NameEnd, Decimal, Word;
  }

  lemma LexUnfold(src: Source, pos: nat)
    requires pos <= |src|
    ensures var p := SkipBlanks(src, pos);
            Lex(src, pos) == if Peek(src, p) == 0 then []
                             else if TokenAt(src, p).0 == S.TBad then [S.TBad]
                             else [TokenAt(src, p).0] + Lex(src, TokenAt(src, p).1)
  {
    hide SkipBlanks, TokenAt;
  }

  lemma NotBad(tk: Tk, num: u64, name: S.Name)
    requires tk != Eof
    ensures TokenOf(tk, num, name) != S.TBad
  {
  }

  lemma AtomToken(tk: Tk, num: u64, name: S.Name)
    requires tk != Eof
    ensures var t := TokenOf(tk, num, name);
            && (t.TNum? <==> tk == Num) && (t.TIdent? <==> tk == Ident) && (t == S.TLParen <==> tk == LParen)
            && (t == S.TMinus <==> tk == Minus)
  {
  }

  lemma OtherStmt(tk: Tk, num: u64, name: S.Name)
    requires tk != Eof && tk != Semi && tk != Let && tk != Tk.Print && tk != Println && tk != If && tk != While
    requires tk != Loop && tk != Break
    ensures var t := TokenOf(tk, num, name);
            && t != S.TSemi && t != S.TLet && t != S.TPrint && t != S.TPrintln && t != S.TIf && t != S.TWhile
            && t != S.TLoop && t != S.TBreak
  {
  }

  lemma PlainTokens(a: Tk, b: Tk, num: u64, name: S.Name)
    requires Plain(b)
    ensures a != Eof ==> (TokenOf(a, num, name) == PlainToken(b) <==> a == b)
  {
  }

  function Comparison(tk: Tk): S.Op {
    match tk
    case EqEq => S.Eq
    case Ne => S.Ne
    case Lt => S.Lt
    case Le => S.Le
    case Gt => S.Gt
    case _ => S.Ge
  }

  lemma RParenToken()
    ensures Plain(RParen) && PlainToken(RParen) == S.TRParen
  {
  }

  lemma PrologueEmitted(n: Now)
    ensures AfterEmit(AfterEmit(AfterEmit(AfterEmit(n, [0x55]), [0x48, 0x89, 0xE5]), [0x48, 0x81, 0xEC]),
      Le32(FRAME_BYTES)) ==
            AfterEmit(n, Bytes(PROLOGUE))
  {
    hide AfterEmit, Bytes, Le32;
    BytesOne(PushRbp);
    BytesOne(MovRbpRsp);
    BytesOne(SubRspImm(FRAME_BYTES));
    EmitInstrs(n, [PushRbp], [MovRbpRsp]);
    assert [PushRbp] + [MovRbpRsp] == [PushRbp, MovRbpRsp];
    EmitInstrs(n, [PushRbp, MovRbpRsp], [SubRspImm(FRAME_BYTES)]);
    assert [PushRbp, MovRbpRsp] + [SubRspImm(FRAME_BYTES)] == PROLOGUE;
    EmitTwice(AfterEmit(AfterEmit(n, [0x55]), [0x48, 0x89, 0xE5]), [0x48, 0x81, 0xEC], Le32(FRAME_BYTES));
  }

  lemma EpilogueEmitted(n: Now)
    ensures AfterEmit(AfterEmit(AfterEmit(n, [0x31, 0xFF]), [0xB8, 0x06, 0x00, 0x00, 0x00]), [0x0F, 0x05]) ==
            AfterEmit(n, Bytes(EPILOGUE))
  {
    hide AfterEmit, Bytes;
    BytesOne(XorEdiEdi);
    BytesOne(MovEaxImm(6));
    BytesOne(Syscall);
    EmitInstrs(n, [XorEdiEdi], [MovEaxImm(6)]);
    assert [XorEdiEdi] + [MovEaxImm(6)] == [XorEdiEdi, MovEaxImm(6)];
    EmitInstrs(n, [XorEdiEdi, MovEaxImm(6)], [Syscall]);
    assert [XorEdiEdi, MovEaxImm(6)] + [Syscall] == EPILOGUE;
  }

  /** The operators of each precedence, as the parser's tests find them. */
  function OperatorToken(tk: Tk, p: int): Option<S.Op> {
    if p == 0 then
      (if tk == EqEq || tk == Ne || tk == Lt || tk == Le || tk == Gt || tk == Ge then Some(Comparison(tk)) else None)
    else if p == 1 then (if tk == Plus then Some(S.Add) else if tk == Minus then Some(S.Sub) else None)
    else if tk == Star then Some(S.Mul)
    else if tk == Slash then Some(S.Div)
    else None
  }

  lemma OperatorOf(rest: seq<S.Token>, tk: Tk, num: u64, name: S.Name, p: int)
    requires 0 <= p <= 2 && (tk == Eof <==> rest == [])
    requires tk != Eof ==> S.Head(rest) == Some(TokenOf(tk, num, name))
    ensures S.OpAt(rest, p) == OperatorToken(tk, p)
  {
    if tk != Eof { OperatorIs(tk, num, name, p); }
  }

  lemma OperatorIs(tk: Tk, num: u64, name: S.Name, p: int)
    requires 0 <= p <= 2 && tk != Eof
    ensures var op := S.TokenOp(TokenOf(tk, num, name));
            OperatorToken(tk, p) == if op.Some? && S.Prec(op.value) == p then op else None
  {
    TokenOperator(tk, num, name);
    hide TokenOf, S.TokenOp, Comparison;
  }

  lemma TokenOperator(tk: Tk, num: u64, name: S.Name)
    requires tk != Eof
    ensures S.TokenOp(TokenOf(tk, num, name)) ==
            if tk == EqEq || tk == Ne || tk == Lt || tk == Le || tk == Gt || tk == Ge then Some(Comparison(tk))
            else if tk == Plus then Some(S.Add) else if tk == Minus then Some(S.Sub)
            else if tk == Star then Some(S.Mul) else if tk == Slash then Some(S.Div) else None
    ensures S.Prec(Comparison(tk)) == 0
  {
    match tk
    case EqEq => case Ne => case Lt => case Le => case Gt => case Ge =>
    case Plus => case Minus => case Star => case Slash =>
    case _ => NoOperator(tk, num, name);
  }

  lemma NoOperator(tk: Tk, num: u64, name: S.Name)
    requires tk.Num? || tk.Ident? || tk.Print? || tk.Println? || tk.Let? || tk.If? || tk.Else? || tk.While? || tk.Loop?
             || tk.Break? || tk.Eq? || tk.LParen? || tk.RParen? || tk.LBrace? || tk.RBrace? || tk.Semi?
    ensures S.TokenOp(TokenOf(tk, num, name)) == None
  {
  }

  class Comp {
    const src: Source
    var pos: nat
    var tok: Tk
    var num: u64
    var nameOff: nat
    var nameLen: nat
    const buf: array<byte>
    var clen: nat
    var vars: Slices
    var breaks: seq<nat>
    var err: int

    ghost predicate Valid()
      reads this
    {
      && buf.Length == ELF_BUF_SIZE && clen <= MAX_CODE && pos <= |src|
      && nameOff + nameLen <= |src| && SlicesOk(src, vars) && ErrorCode(err)
      && |vars| <= MAX_LOCALS && |breaks| <= MAX_BREAKS
      && (err == 0 ==> forall i :: 0 <= i < |breaks| ==> breaks[i] + 4 <= clen)
    }

    ghost function Name(): S.Name
      requires nameOff + nameLen <= |src|
      reads this`nameOff, this`nameLen
    {
      src[nameOff..nameOff + nameLen]
    }

    /** The current token and those not yet read. */
    ghost function Rest(): seq<S.Token>
      reads this`pos, this`tok, this`num, this`nameOff, this`nameLen
    {
      if tok == Eof || pos > |src| || nameOff + nameLen > |src| then []
      else [TokenOf(tok, num, Name())] + Lex(src, pos)
    }

    ghost function Code(): seq<byte>
      requires buf.Length == ELF_BUF_SIZE && clen <= MAX_CODE
      reads this`clen, buf
    {
      buf[CODE_OFF..CODE_OFF + clen]
    }

    /** The abstract state; None once an error has been recorded. */
    ghost function State(): (n: Now)
      requires Valid()
      reads this, buf
      ensures n.Some? <==> err == 0
      ensures n.Some? ==> Within(n.value) && |n.value.code| == clen && n.value.breaks == breaks
    {
      if err != 0 then None else Some(Snap(Rest(), Table(src, vars), Code(), breaks))
    }

    /** Bound on the tokens that can still be read. */
    ghost function Measure(): nat
      reads this`pos, this`tok
    {
      (if pos <= |src| then |src| - pos else 0) + if tok == Eof then 0 else 1
    }

    constructor (src: Source, buf: array<byte>)
      requires buf.Length == ELF_BUF_SIZE
      ensures Valid() && this.src == src && this.buf == buf && pos == 0 && tok == Eof
      ensures State() == Some(Snap([], [], [], []))
    {
      this.src, this.buf := src, buf;
      pos, tok, num, nameOff, nameLen := 0, Eof, 0, 0, 0;
      clen, vars, breaks, err := 0, [], [], 0;
    }

    // ----- Lexer -----

    method SkipWs()
      requires Valid()
      modifies this`pos
      ensures Valid() && pos == SkipBlanks(src, old(pos))
    {
      while true
        invariant Valid() && SkipBlanks(src, pos) == SkipBlanks(src, old(pos))
        decreases |src| - pos
      {
        var c := Peek(src, pos);
        if c == 47 && Peek(src, pos + 1) == 47 {
          ghost var start := pos;
          pos := pos + 1;
          while Peek(src, pos) != 10 && Peek(src, pos) != 0
            invariant start < pos <= |src| && LineEnd(src, pos) == LineEnd(src, start + 1)
            decreases |src| - pos
          {
            pos := pos + 1;
          }
        } else if c == 32 || c == 9 || c == 10 || c == 13 {
          pos := pos + 1;
        } else {
          break;
        }
      }
    }

    /** A syntax error. */
    method Reject()
      requires Valid()
      modifies this`err
      ensures Valid() && err == (if old(err) == 0 then E_PARSE else old(err)) && err != 0 && Measure() == old(Measure())
      ensures State().None?
    {
      Fail(E_PARSE);
    }

    method Fail(code: int)
      requires Valid() && code != 0 && ErrorCode(code)
      modifies this`err
      ensures Valid() && err == if old(err) == 0 then code else old(err)
      ensures State().None?
    {
      if err == 0 { err := code; }
    }

    method LexNumber()
      requires Valid() && pos < |src| && IsDigit(src[pos])
      modifies this`pos, this`num, this`tok
      ensures Valid() && tok == Num
      ensures TokenAt(src, old(pos)) == (TokenOf(tok, num, Name()), pos)
    {
      var n: u64 := 0;
      while IsDigit(Peek(src, pos))
        invariant old(pos) <= pos <= |src| && n == Decimal(src, old(pos), pos)
        invariant DigitsEnd(src, pos) == DigitsEnd(src, old(pos))
        decreases |src| - pos
      {
        n := Wrap(n * 10 + src[pos] - 48);
        pos := pos + 1;
      }
      num := n;
      tok := Num;
    }

    method LexName()
      requires Valid() && pos < |src| && IsLetter(src[pos])
      modifies this`pos, this`nameOff, this`nameLen, this`tok
      ensures Valid() && tok != Eof
      ensures TokenAt(src, old(pos)) == (TokenOf(tok, num, Name()), pos)
    {
      hide Keyword, Word, DigitsEnd, Decimal, TokenOf;
      var start := pos;
      while IsLetter(Peek(src, pos)) || IsDigit(Peek(src, pos))
        invariant start <= pos <= |src| && NameEnd(src, pos) == NameEnd(src, start)
        decreases |src| - pos
      {
        pos := pos + 1;
      }
      nameOff, nameLen := start, pos - start;
      var name := src[start..pos];
      tok := Keyword(name);
      assert src[nameOff..nameOff + nameLen] == name;
      KeywordToken(name, num);
    }

    /** One or two punctuation characters; anything else is an error. */
    method LexSymbol()
      requires Valid() && pos < |src| && src[pos] != 0 && !IsDigit(src[pos]) && !IsLetter(src[pos])
      modifies this`pos, this`tok, this`err
      ensures Valid() && pos == TokenAt(src, old(pos)).1
      ensures TokenAt(src, old(pos)).0 == S.TBad ==>
        tok == old(tok) && err == if old(err) == 0 then E_PARSE else old(err)
      ensures TokenAt(src, old(pos)).0 != S.TBad ==>
        err == old(err) && tok != Eof && TokenOf(tok, num, Name()) == TokenAt(src, old(pos)).0
    {
      hide TokenAt;
      var c, d := src[pos], Peek(src, pos + 1);
      var t := Symbol(c, d);
      SymbolToken(src, pos);
      pos := pos + if Doubled(c, d) then 2 else 1;
      if t == Eof {
        if err == 0 { err := E_PARSE; }
      } else {
        tok := t;
      }
    }

    method Advance()
      requires Valid()
      modifies this`pos, this`tok, this`num, this`nameOff, this`nameLen, this`err
      ensures Valid() && pos >= old(pos) && (old(err) != 0 ==> err == old(err))
      ensures tok == Eof || pos > old(pos)
      ensures S.Head(Lex(src, old(pos))) == Some(S.TBad) ==> err == if old(err) == 0 then E_PARSE else old(err)
      ensures S.Head(Lex(src, old(pos))) != Some(S.TBad) ==> err == old(err) && Rest() == Lex(src, old(pos))
    {
      hide SkipBlanks, TokenAt, Lex, TokenOf, Table;
      LexUnfold(src, pos);
      SkipWs();
      var c := Peek(src, pos);
      if c == 0 {
        tok := Eof;
      } else if IsDigit(c) {
        LexNumber();
        NotBad(tok, num, Name());
      } else if IsLetter(c) {
        LexName();
        NotBad(tok, num, Name());
      } else {
        LexSymbol();
      }
    }

    /** Read the next token. */
    method Next()
      requires Valid()
      modifies this`pos, this`tok, this`num, this`nameOff, this`nameLen, this`err
      ensures Valid() && (old(err) != 0 ==> err == old(err))
      ensures old(tok) != Eof ==> Measure() < old(Measure())
      ensures State() == if old(err) != 0 then None
                         else Seal(Lex(src, old(pos)), old(Table(src, vars)), old(Code()), old(breaks))
      ensures old(tok) != Eof ==> State() == AfterNext(old(State()))
      ensures Tracks(old(err), err, Some(Lex(src, old(pos))), Rest())
    {
      hide Lex, TokenOf, Table;
      Advance();
    }

    /** The current token is the first of the tokens left. */
    lemma TokenIsHead()
      requires Valid() && err == 0
      ensures tok == Eof <==> State().value.rest == []
      ensures tok != Eof ==> S.Head(State().value.rest) == Some(TokenOf(tok, num, Name()))
    {
    }

    /** The tokens left begin with the current one. */
    lemma RestHead()
      requires Valid()
      ensures tok == Eof <==> Rest() == []
      ensures tok != Eof ==> Rest()[0] == TokenOf(tok, num, Name()) && Dropped(Rest()) == Lex(src, pos)
    {
      hide Lex, TokenOf;
    }

    /** What expecting `t` comes to. */
    lemma EatHere(t: Tk)
      requires Valid() && Plain(t)
      ensures tok == t ==> tok != Eof && Eaten(Rest(), PlainToken(t)) == Some(Lex(src, pos))
      ensures tok != t ==> Eaten(Rest(), PlainToken(t)) == None
      ensures AfterEat(State(), PlainToken(t)) == if tok == t then AfterNext(State()) else None
    {
      RestHead();
      StateRest();
      if tok != Eof { PlainTokens(tok, t, num, Name()); }
      hide Lex, TokenOf, Rest, State, PlainToken;
    }

    method Eat(t: Tk) returns (ok: bool)
      requires Valid() && Plain(t)
      modifies this`pos, this`tok, this`num, this`nameOff, this`nameLen, this`err
      ensures Valid() && Measure() <= old(Measure()) && (err == 0 ==> Measure() < old(Measure()))
      ensures State() == AfterEat(old(State()), PlainToken(t)) && (old(err) != 0 ==> err != 0)
      ensures Tracks(old(err), err, Eaten(old(Rest()), PlainToken(t)), Rest())
    {
      EatHere(t);
      hide *;
      ghost var e0, ts := err, Rest();
      if tok == t {
        Next();
        ok := true;
      } else {
        Reject();
        Rejected(e0, err, Eaten(ts, PlainToken(t)), Rest());
        ok := false;
      }
    }

    // ----- Variables -----

    method VarSlot(off: nat, len: nat) returns (slot: nat)
      requires Valid() && off + len <= |src|
      modifies this`vars, this`err
      ensures Valid() && slot < MAX_LOCALS
      ensures State() == AfterDeclare(old(State()), src[off..off + len])
      ensures err == old(err) || (old(err) == 0 && err != E_PARSE)
      ensures State().Some? ==> slot == Slot(old(Table(src, vars)), src[off..off + len])
    {
      hide Lex, SlotOf, Table, TokenOf, Rest, Code;
      ghost var x, t := src[off..off + len], Table(src, vars);
      var i := FindVar(off, len);
      if i < |vars| {
        SlotFirst(t, x, i);
        return i;
      }
      if |vars| >= MAX_LOCALS {
        Fail(E_TOOMANY_VARS);
        return 0;
      }
      slot := |vars|;
      TableAppend(src, vars, off, len);
      vars := vars + [(off, len)];
      SlotFirst(t + [x], x, slot);
    }

    method FindVar(off: nat, len: nat) returns (i: nat)
      requires Valid() && off + len <= |src|
      ensures i <= |vars| && forall j :: 0 <= j < i ==> Table(src, vars)[j] != src[off..off + len]
      ensures i < |vars| ==> Table(src, vars)[i] == src[off..off + len]
    {
      i := 0;
      while i < |vars|
        invariant i <= |vars| && forall j :: 0 <= j < i ==> Table(src, vars)[j] != src[off..off + len]
      {
        var (o, l) := vars[i];
        if l == len && src[o..o + l] == src[off..off + len] { return; }
        i := i + 1;
      }
    }

    // ----- Emitter -----

    method Emit(b: byte)
      requires Valid()
      modifies this`clen, this`err, buf
      ensures Valid() && State() == AfterEmit(old(State()), [b])
      ensures (err == old(err) || (old(err) == 0 && err != E_PARSE)) && clen >= old(clen)
      ensures err == 0 ==> old(err) == 0 && clen == old(clen) + 1
    {
      hide Lex, Table, TokenOf, Rest;
      if CODE_OFF + clen >= ELF_BUF_SIZE {
        Fail(E_OVERFLOW);
        return;
      }
      buf[CODE_OFF + clen] := b;
      clen := clen + 1;
      assert Code() == old(Code()) + [b];
    }

    method EmitBytes(bs: seq<byte>)
      requires Valid()
      modifies this`clen, this`err, buf
      ensures Valid() && State() == AfterEmit(old(State()), bs)
      ensures (err == old(err) || (old(err) == 0 && err != E_PARSE)) && clen >= old(clen)
      ensures err == 0 ==> old(err) == 0 && clen == old(clen) + |bs|
    {
      hide Lex, Table, AfterEmit;
      ghost var n0 := State();
      EmitNothing(n0);
      for i := 0 to |bs|
        invariant Valid() && State() == AfterEmit(n0, bs[..i])
        invariant err == old(err) || (old(err) == 0 && err != E_PARSE)
        invariant clen >= old(clen) && (err == 0 ==> old(err) == 0 && clen == old(clen) + i)
      {
        Emit(bs[i]);
        EmitTwice(n0, bs[..i], [bs[i]]);
        assert bs[..i] + [bs[i]] == bs[..i + 1];
      }
      assert bs[..|bs|] == bs;
    }

    lemma EmitNothing(n: Now)
      requires n.Some? ==> Within(n.value)
      ensures AfterEmit(n, []) == n
    {
      if n.Some? { assert n.value.code + [] == n.value.code; }
    }

    /** Overwrite four bytes of code emitted earlier. */
    method Patch32(site: nat, rel: int)
      requires Valid() && (err == 0 ==> site + 4 <= clen)
      modifies buf
      ensures Valid() && State() == AfterPatch(old(State()), site, rel)
      ensures (old(err) != 0 ==> err != 0) && clen >= old(clen)
    {
      hide Lex, Table, Le32;
      var bytes := Le32(rel);
      for k := 0 to 4
        invariant forall i :: 0 <= i < buf.Length && !(CODE_OFF + site <= i < CODE_OFF + site + k) ==>
          buf[i] == old(buf[i])
        invariant forall i :: 0 <= i < k && CODE_OFF + site + i < ELF_BUF_SIZE ==> buf[CODE_OFF + site + i] == bytes[i]
      {
        if CODE_OFF + site + k < ELF_BUF_SIZE {
          buf[CODE_OFF + site + k] := bytes[k];
        }
      }
      if err == 0 {
        ghost var want := Patch(old(Code()), site, rel);
        forall i | 0 <= i < clen ensures Code()[i] == want[i] {
          if site <= i < site + 4 {
            assert buf[CODE_OFF + site + (i - site)] == bytes[i - site];
          } else {
            assert old(Code())[i] == old(buf[CODE_OFF + i]) == buf[CODE_OFF + i];
          }
        }
        assert Code() == want;
      }
    }

    // ----- Instructions -----

    method MovRaxImm(imm: u64)
      requires Valid()
      modifies this`clen, this`err, buf
      ensures Valid() && State() == AfterEmit(old(State()), Bytes([X86.MovRaxImm(imm)]))
      ensures (err == old(err) || (old(err) == 0 && err != E_PARSE)) && clen >= old(clen)
    {
      hide Lex, Table, AfterEmit, Bytes, Le64;
      ghost var n := State();
      EmitBytes([0x48, 0xB8]);
      EmitBytes(Le64(imm));
      EmitTwice(n, [0x48, 0xB8], Le64(imm));
      BytesOne(X86.MovRaxImm(imm));
    }

    method PushRax()
      requires Valid()
      modifies this`clen, this`err, buf
      ensures Valid() && State() == AfterEmit(old(State()), Bytes([X86.PushRax]))
      ensures (err == old(err) || (old(err) == 0 && err != E_PARSE)) && clen >= old(clen)
    {
      hide Lex, Table, AfterEmit, Bytes;
      Emit(0x50);
      BytesOne(X86.PushRax);
    }

    method PopRax()
      requires Valid()
      modifies this`clen, this`err, buf
      ensures Valid() && State() == AfterEmit(old(State()), Bytes([X86.PopRax]))
      ensures (err == old(err) || (old(err) == 0 && err != E_PARSE)) && clen >= old(clen)
    {
      hide Lex, Table, AfterEmit, Bytes;
      Emit(0x58);
      BytesOne(X86.PopRax);
    }

    method MovRcxRax()
      requires Valid()
      modifies this`clen, this`err, buf
      ensures Valid() && State() == AfterEmit(old(State()), Bytes([X86.MovRcxRax]))
      ensures (err == old(err) || (old(err) == 0 && err != E_PARSE)) && clen >= old(clen)
    {
      hide Lex, Table, AfterEmit, Bytes;
      EmitBytes([0x48, 0x89, 0xC1]);
      BytesOne(X86.MovRcxRax);
    }

    method LoadLocal(slot: nat)
      requires Valid()
      modifies this`clen, this`err, buf
      ensures Valid() && State() == AfterEmit(old(State()), Bytes([X86.LoadRax(Disp(slot))]))
      ensures (err == old(err) || (old(err) == 0 && err != E_PARSE)) && clen >= old(clen)
    {
      hide Lex, Table, AfterEmit, Bytes, Le32;
      ghost var n := State();
      EmitBytes([0x48, 0x8B, 0x85]);
      EmitBytes(Le32(Disp(slot)));
      EmitTwice(n, [0x48, 0x8B, 0x85], Le32(Disp(slot)));
      BytesOne(X86.LoadRax(Disp(slot)));
    }

    method StoreLocal(slot: nat)
      requires Valid()
      modifies this`clen, this`err, buf
      ensures Valid() && State() == AfterEmit(old(State()), Bytes([X86.StoreRax(Disp(slot))]))
      ensures (err == old(err) || (old(err) == 0 && err != E_PARSE)) && clen >= old(clen)
    {
      hide Lex, Table, AfterEmit, Bytes, Le32;
      ghost var n := State();
      EmitBytes([0x48, 0x89, 0x85]);
      EmitBytes(Le32(Disp(slot)));
      EmitTwice(n, [0x48, 0x89, 0x85], Le32(Disp(slot)));
      BytesOne(X86.StoreRax(Disp(slot)));
    }

    method OpNeg()
      requires Valid()
      modifies this`clen, this`err, buf
      ensures Valid() && State() == AfterEmit(old(State()), Bytes([X86.NegRax]))
      ensures (err == old(err) || (old(err) == 0 && err != E_PARSE)) && clen >= old(clen)
    {
      hide Lex, Table, AfterEmit, Bytes;
      EmitBytes([0x48, 0xF7, 0xD8]);
      BytesOne(X86.NegRax);
    }

    method OpAdd()
      requires Valid()
      modifies this`clen, this`err, buf
      ensures Valid() && State() == AfterEmit(old(State()), Bytes(OpCode(S.Add)))
      ensures (err == old(err) || (old(err) == 0 && err != E_PARSE)) && clen >= old(clen)
    {
      hide Lex, Table, AfterEmit, Bytes;
      EmitBytes([0x48, 0x01, 0xC8]);
      BytesOne(X86.AddRaxRcx);
    }

    method OpSub()
      requires Valid()
      modifies this`clen, this`err, buf
      ensures Valid() && State() == AfterEmit(old(State()), Bytes(OpCode(S.Sub)))
      ensures (err == old(err) || (old(err) == 0 && err != E_PARSE)) && clen >= old(clen)
    {
      hide Lex, Table, AfterEmit, Bytes;
      EmitBytes([0x48, 0x29, 0xC8]);
      BytesOne(X86.SubRaxRcx);
    }

    method OpMul()
      requires Valid()
      modifies this`clen, this`err, buf
      ensures Valid() && State() == AfterEmit(old(State()), Bytes(OpCode(S.Mul)))
      ensures (err == old(err) || (old(err) == 0 && err != E_PARSE)) && clen >= old(clen)
    {
      hide Lex, Table, AfterEmit, Bytes;
      EmitBytes([0x48, 0x0F, 0xAF, 0xC1]);
      BytesOne(X86.ImulRaxRcx);
    }

    method OpCmpSet(ghost op: S.Op, set2: byte)
      requires Valid() && S.Prec(op) == 0 && set2 == CondByte(CondOf(op))
      modifies this`clen, this`err, buf
      ensures Valid() && State() == AfterEmit(old(State()), Bytes(OpCode(op)))
      ensures (err == old(err) || (old(err) == 0 && err != E_PARSE)) && clen >= old(clen)
    {
      hide Lex, Table, AfterEmit, Bytes, CondByte;
      ghost var n := State();
      EmitBytes([0x48, 0x39, 0xC8]);
      EmitBytes([0x0F, set2, 0xC0]);
      EmitBytes([0x48, 0x0F, 0xB6, 0xC0]);
      BytesOne(X86.CmpRaxRcx);
      BytesOne(X86.SetAl(CondOf(op)));
      BytesOne(X86.MovzxRaxAl);
      EmitInstrs(n, [X86.CmpRaxRcx], [X86.SetAl(CondOf(op))]);
      assert [X86.CmpRaxRcx] + [X86.SetAl(CondOf(op))] == [X86.CmpRaxRcx, X86.SetAl(CondOf(op))];
      EmitInstrs(n, [X86.CmpRaxRcx, X86.SetAl(CondOf(op))], [X86.MovzxRaxAl]);
      assert [X86.CmpRaxRcx, X86.SetAl(CondOf(op))] + [X86.MovzxRaxAl] == OpCode(op);
    }

    /** Division: two forward jumps, both patched once their targets are known. */
    method OpDiv()
      requires Valid()
      modifies this`clen, this`err, buf
      ensures Valid() && State() == AfterEmit(old(State()), Bytes(OpCode(S.Div)))
      ensures (err == old(err) || (old(err) == 0 && err != E_PARSE)) && clen >= old(clen)
    {
      hide *;
      ghost var n, len := State(), clen;
      var siteSkip, siteDone, skipTarget, doneTarget := EmitDiv();
      Patch32(siteSkip, skipTarget - (siteSkip + 4));
      Patch32(siteDone, doneTarget - (siteDone + 4));
      DivPatched(n, len);
      PatchNone(siteSkip, skipTarget - (siteSkip + 4));
      PatchNone(siteDone, doneTarget - (siteDone + 4));
      DivSame(n);
    }

    method EmitDiv() returns (siteSkip: nat, siteDone: nat, skipTarget: int, doneTarget: int)
      requires Valid()
      modifies this`clen, this`err, buf
      ensures Valid() && State() == AfterEmit(old(State()), DivBytes(0, 0))
      ensures (err == old(err) || (old(err) == 0 && err != E_PARSE)) && clen >= old(clen)
      ensures err == 0 ==> old(err) == 0 && clen == old(clen) + 21
      ensures err == 0 ==>
        siteSkip == old(clen) + 5 && siteDone == old(clen) + 15 && skipTarget == old(clen) + 19 && doneTarget == clen
    {
      hide *;
      ghost var n := State();
      EmitBytes([0x48, 0x85, 0xC9]);
      EmitBytes([0x0F, 0x84]);
      siteSkip := clen;
      EmitBytes(Le32(0));
      EmitBytes([0x31, 0xD2]);
      EmitBytes([0x48, 0xF7, 0xF1]);
      EmitBytes([0xE9]);
      siteDone := clen;
      EmitBytes(Le32(0));
      skipTarget := clen;
      EmitBytes([0x31, 0xC0]);
      doneTarget := clen;
      DivEmitted(n);
    }

    // ----- Expressions -----

    /** Before the right operand: skip the operator and save the left operand. */
    method SaveOperand()
      requires Valid() && tok != Eof
      modifies this, buf
      ensures Valid() && Measure() < old(Measure()) && (old(err) != 0 ==> err != 0) && breaks == old(breaks)
      ensures clen >= old(clen)
      ensures State() == AfterEmit(AfterNext(old(State())), Bytes([X86.PushRax]))
      ensures Tracks(old(err), err, Some(Dropped(old(Rest()))), Rest())
    {
      hide *;
      RestHead();
      ghost var e0, end := err, Some(Dropped(Rest()));
      Next();
      ghost var e1 := err;
      PushRax();
      QuietAfter(e0, e1, err, end, Rest());
    }

    /** After the right operand: rcx gets it, rax the left one. */
    method RestoreOperand()
      requires Valid()
      modifies this`clen, this`err, buf
      ensures Valid() && (err == old(err) || (old(err) == 0 && err != E_PARSE)) && clen >= old(clen)
      ensures State() == AfterEmit(AfterEmit(old(State()), Bytes([X86.MovRcxRax])), Bytes([X86.PopRax]))
    {
      hide *;
      MovRcxRax();
      PopRax();
    }

    method Expr()
      requires Valid()
      modifies this, buf
      ensures Valid() && Measure() <= old(Measure()) && (old(err) != 0 ==> err != 0) && breaks == old(breaks)
      ensures clen >= old(clen)
      ensures State() == AfterE(old(State()), 0)
      ensures Tracks(old(err), err, EndOf(S.Parse(old(Rest()), 0)), Rest())
      decreases Measure(), 4
    {
      Cmp();
    }

    method Cmp()
      requires Valid()
      modifies this, buf
      ensures Valid() && Measure() <= old(Measure()) && (old(err) != 0 ==> err != 0) && breaks == old(breaks)
      ensures clen >= old(clen)
      ensures State() == AfterE(old(State()), 0)
      ensures Tracks(old(err), err, EndOf(S.Parse(old(Rest()), 0)), Rest())
      decreases Measure(), 3
    {
      hide Lex, Table, AfterE, AfterEmit, AfterNext, AfterDeclare, AfterEat, Bytes, OpCode, State, Rest, Code, Valid;
      hide Tracks, Looping, EndOf, S.Parse, Measure, InLoop, FirstOperand, S.OpAt, Name, TokenOf, Slot;
      ghost var n0, e0, ts := State(), err, Rest();
      Add();
      LoopBegins(e0, err, ts, Rest(), 0);
      ghost var e := FirstOperand(n0, 0);
      LoopStart(n0, State(), 0);
      while tok == EqEq || tok == Ne || tok == Lt || tok == Le || tok == Gt || tok == Ge
        invariant Valid() && Measure() <= old(Measure()) && (old(err) != 0 ==> err != 0) && breaks == old(breaks)
        invariant clen >= old(clen)
        invariant InLoop(n0, State(), e, 0)
        invariant Looping(e0, err, EndOf(S.Parse(ts, 0)), Rest(), 0)
        decreases Measure()
      {
        e := CmpTurn(n0, e, e0, EndOf(S.Parse(ts, 0)));
        if err != 0 { break; }
      }
      Operator0();
      LoopEnds(n0, State(), e, 0);
      LoopLeft(e0, err, EndOf(S.Parse(ts, 0)), Rest(), 0);
    }

    /** One turn of that loop: an operator and its right operand. */
    method CmpTurn(ghost n0: Now, ghost e: S.Expr, ghost e0: int, ghost end: End) returns (ghost e': S.Expr)
      requires Valid() && (tok == EqEq || tok == Ne || tok == Lt || tok == Le || tok == Gt || tok == Ge)
      requires InLoop(n0, State(), e, 0) && Looping(e0, err, end, Rest(), 0)
      modifies this, buf
      ensures Valid() && Measure() < old(Measure()) && (old(err) != 0 ==> err != 0) && breaks == old(breaks)
      ensures clen >= old(clen) && InLoop(n0, State(), e', 0) && Looping(e0, err, end, Rest(), 0)
      decreases Measure(), 0
    {
      hide Lex, Table, AfterE, AfterEmit, AfterNext, AfterDeclare, AfterEat, Bytes, OpCode, State, Rest, Code, Valid;
      hide Tracks, Looping, EndOf, S.Parse, Measure, InLoop, S.OpAt, Name, TokenOf, Slot, Dropped;
      var op := tok;
      ghost var n1, e1, r1 := State(), err, Rest();
      Operator0();
      SaveOperand();
      ghost var e2, r2 := err, Rest();
      Add();
      ghost var e3 := err;
      RestoreOperand();
      var set2 :=
        match op
        case EqEq => 0x94
        case Ne => 0x95
        case Lt => 0x92
        case Le => 0x96
        case Gt => 0x97
        case _ => 0x93;
      OpCmpSet(Comparison(op), set2);
      e' := LoopTurn(n0, n1, State(), e, 0, Comparison(op));
      LoopTurns(e0, e1, e2, e3, err, end, r1, r2, Rest(), 0);
    }

    method Add()
      requires Valid()
      modifies this, buf
      ensures Valid() && Measure() <= old(Measure()) && (old(err) != 0 ==> err != 0) && breaks == old(breaks)
      ensures clen >= old(clen)
      ensures State() == AfterE(old(State()), 1)
      ensures Tracks(old(err), err, EndOf(S.Parse(old(Rest()), 1)), Rest())
      decreases Measure(), 2
    {
      hide Lex, Table, AfterE, AfterEmit, AfterNext, AfterDeclare, AfterEat, Bytes, OpCode, State, Rest, Code, Valid;
      hide Tracks, Looping, EndOf, S.Parse, Measure, InLoop, FirstOperand, S.OpAt, Name, TokenOf, Slot;
      ghost var n0, e0, ts := State(), err, Rest();
      Mul();
      LoopBegins(e0, err, ts, Rest(), 1);
      ghost var e := FirstOperand(n0, 1);
      LoopStart(n0, State(), 1);
      while tok == Plus || tok == Minus
        invariant Valid() && Measure() <= old(Measure()) && (old(err) != 0 ==> err != 0) && breaks == old(breaks)
        invariant clen >= old(clen)
        invariant InLoop(n0, State(), e, 1)
        invariant Looping(e0, err, EndOf(S.Parse(ts, 1)), Rest(), 1)
        decreases Measure()
      {
        e := AddTurn(n0, e, e0, EndOf(S.Parse(ts, 1)));
        if err != 0 { break; }
      }
      Operator1();
      LoopEnds(n0, State(), e, 1);
      LoopLeft(e0, err, EndOf(S.Parse(ts, 1)), Rest(), 1);
    }

    /** One turn of that loop: an operator and its right operand. */
    method AddTurn(ghost n0: Now, ghost e: S.Expr, ghost e0: int, ghost end: End) returns (ghost e': S.Expr)
      requires Valid() && (tok == Plus || tok == Minus)
      requires InLoop(n0, State(), e, 1) && Looping(e0, err, end, Rest(), 1)
      modifies this, buf
      ensures Valid() && Measure() < old(Measure()) && (old(err) != 0 ==> err != 0) && breaks == old(breaks)
      ensures clen >= old(clen) && InLoop(n0, State(), e', 1) && Looping(e0, err, end, Rest(), 1)
      decreases Measure(), 0
    {
      hide Lex, Table, AfterE, AfterEmit, AfterNext, AfterDeclare, AfterEat, Bytes, OpCode, State, Rest, Code, Valid;
      hide Tracks, Looping, EndOf, S.Parse, Measure, InLoop, S.OpAt, Name, TokenOf, Slot, Dropped;
      var op := tok;
      ghost var n1, e1, r1 := State(), err, Rest();
      Operator1();
      SaveOperand();
      ghost var e2, r2 := err, Rest();
      Mul();
      ghost var e3 := err;
      RestoreOperand();
      if op == Plus { OpAdd(); } else { OpSub(); }
      e' := LoopTurn(n0, n1, State(), e, 1, if op == Plus then S.Add else S.Sub);
      LoopTurns(e0, e1, e2, e3, err, end, r1, r2, Rest(), 1);
    }

    method Mul()
      requires Valid()
      modifies this, buf
      ensures Valid() && Measure() <= old(Measure()) && (old(err) != 0 ==> err != 0) && breaks == old(breaks)
      ensures clen >= old(clen)
      ensures State() == AfterE(old(State()), 2)
      ensures Tracks(old(err), err, EndOf(S.Parse(old(Rest()), 2)), Rest())
      decreases Measure(), 1
    {
      hide Lex, Table, AfterE, AfterEmit, AfterNext, AfterDeclare, AfterEat, Bytes, OpCode, State, Rest, Code, Valid;
      hide Tracks, Looping, EndOf, S.Parse, Measure, InLoop, FirstOperand, S.OpAt, Name, TokenOf, Slot;
      ghost var n0, e0, ts := State(), err, Rest();
      Atom();
      LoopBegins(e0, err, ts, Rest(), 2);
      ghost var e := FirstOperand(n0, 2);
      LoopStart(n0, State(), 2);
      while tok == Star || tok == Slash
        invariant Valid() && Measure() <= old(Measure()) && (old(err) != 0 ==> err != 0) && breaks == old(breaks)
        invariant clen >= old(clen)
        invariant InLoop(n0, State(), e, 2)
        invariant Looping(e0, err, EndOf(S.Parse(ts, 2)), Rest(), 2)
        decreases Measure()
      {
        e := MulTurn(n0, e, e0, EndOf(S.Parse(ts, 2)));
        if err != 0 { break; }
      }
      Operator2();
      LoopEnds(n0, State(), e, 2);
      LoopLeft(e0, err, EndOf(S.Parse(ts, 2)), Rest(), 2);
    }

    /** One turn of that loop: an operator and its right operand. */
    method MulTurn(ghost n0: Now, ghost e: S.Expr, ghost e0: int, ghost end: End) returns (ghost e': S.Expr)
      requires Valid() && (tok == Star || tok == Slash)
      requires InLoop(n0, State(), e, 2) && Looping(e0, err, end, Rest(), 2)
      modifies this, buf
      ensures Valid() && Measure() < old(Measure()) && (old(err) != 0 ==> err != 0) && breaks == old(breaks)
      ensures clen >= old(clen) && InLoop(n0, State(), e', 2) && Looping(e0, err, end, Rest(), 2)
      decreases Measure(), 0
    {
      hide Lex, Table, AfterE, AfterEmit, AfterNext, AfterDeclare, AfterEat, Bytes, OpCode, State, Rest, Code, Valid;
      hide Tracks, Looping, EndOf, S.Parse, Measure, InLoop, S.OpAt, Name, TokenOf, Slot, Dropped;
      var op := tok;
      ghost var n1, e1, r1 := State(), err, Rest();
      Operator2();
      SaveOperand();
      ghost var e2, r2 := err, Rest();
      Atom();
      ghost var e3 := err;
      RestoreOperand();
      if op == Star { OpMul(); } else { OpDiv(); }
      e' := LoopTurn(n0, n1, State(), e, 2, if op == Star then S.Mul else S.Div);
      LoopTurns(e0, e1, e2, e3, err, end, r1, r2, Rest(), 2);
    }

    /** The slot of the current name. */
    method NameSlot() returns (slot: nat)
      requires Valid()
      modifies this`vars, this`err
      ensures Valid() && slot < MAX_LOCALS && Measure() == old(Measure())
      ensures err == old(err) || (old(err) == 0 && err != E_PARSE)
      ensures State() == AfterDeclare(old(State()), old(Name()))
      ensures State().Some? ==> old(err) == 0 && slot == old(Slot(Table(src, vars), Name()))
    {
      hide Lex, Table, AfterDeclare, Slot, TokenOf, Rest, Code;
      slot := VarSlot(nameOff, nameLen);
    }

    method AtomVar()
      requires Valid() && tok == Ident
      modifies this, buf
      ensures Valid() && Measure() <= old(Measure()) && (old(err) != 0 ==> err != 0) && breaks == old(breaks)
      ensures clen >= old(clen)
      ensures old(err) == 0 ==>
                State() == AfterEmit(AfterNext(AfterDeclare(old(State()), old(Name()))),
                                     Bytes([X86.LoadRax(Disp(old(Slot(Table(src, vars), Name()))))]))
      ensures Tracks(old(err), err, Some(Dropped(old(Rest()))), Rest())
    {
      hide *;
      RestHead();
      ghost var e0, end := err, Some(Dropped(Rest()));
      var slot := NameSlot();
      ghost var e1 := err;
      NoneStays();
      Next();
      ghost var e2 := err;
      LoadLocal(slot);
      QuietBefore(e0, e1, e2, end, Rest());
      QuietAfter(e0, e2, err, end, Rest());
    }

    method Atom()
      requires Valid()
      modifies this, buf
      ensures Valid() && Measure() <= old(Measure()) && (old(err) != 0 ==> err != 0) && breaks == old(breaks)
      ensures clen >= old(clen)
      ensures State() == AfterE(old(State()), 3)
      ensures Tracks(old(err), err, EndOf(S.Parse(old(Rest()), 3)), Rest())
      decreases Measure(), 0, 1
    {
      hide *;
      AtomHead();
      AtomStart();
      ghost var e0, ts := err, Rest();
      if tok == Num {
        var n := num;
        Next();
        ghost var e1 := err;
        MovRaxImm(n);
          QuietAfter(e0, e1, err, EndOf(S.Parse(ts, 3)), Rest());
      } else if tok == Ident {
        AtomVar();
      } else if tok == LParen {
        AtomParen();
      } else if tok == Minus {
        AtomNeg();
      } else {
        Reject();
        Rejected(e0, err, EndOf(S.Parse(ts, 3)), Rest());
      }
    }

    method AtomParen()
      requires Valid() && tok == LParen
      modifies this, buf
      ensures Valid() && Measure() <= old(Measure()) && (old(err) != 0 ==> err != 0) && breaks == old(breaks)
      ensures clen >= old(clen)
      ensures State() == AfterEat(AfterE(AfterNext(old(State())), 0), S.TRParen)
      ensures Tracks(old(err), err, EndOf(S.Parse(old(Rest()), 3)), Rest())
      decreases Measure(), 0, 0
    {
      hide *;
      AtomHead();
      RestHead();
      RParenToken();
      ghost var e0, ts := err, Rest();
      Next();
      ghost var e1, r1 := err, Rest();
      Expr();
      ghost var e2, r2 := err, Rest();
      var _ := Eat(RParen);
      ParenTracks(e0, e1, e2, err, ts, r1, r2, Rest());
    }

    method AtomNeg()
      requires Valid() && tok == Minus
      modifies this, buf
      ensures Valid() && Measure() <= old(Measure()) && (old(err) != 0 ==> err != 0) && breaks == old(breaks)
      ensures clen >= old(clen)
      ensures State() == AfterEmit(AfterE(AfterNext(old(State())), 3), Bytes([X86.NegRax]))
      ensures Tracks(old(err), err, EndOf(S.Parse(old(Rest()), 3)), Rest())
      decreases Measure(), 0, 0
    {
      hide *;
      AtomHead();
      RestHead();
      ghost var e0, ts := err, Rest();
      Next();
      ghost var e1, r1 := err, Rest();
      Atom();
      ghost var e2 := err;
      NegTracks(e0, e1, e2, ts, r1, Rest());
      OpNeg();
      QuietAfter(e0, e2, err, EndOf(S.Parse(ts, 3)), Rest());
    }

    // ----- Statements -----

    /** `test rax, rax; je` with an open distance. */
    method EmitTest() returns (site: nat)
      requires Valid()
      modifies this`clen, this`err, buf
      ensures Valid() && State() == AfterEmit(old(State()), Bytes([X86.TestRaxRax, X86.Je(0)]))
      ensures (err == old(err) || (old(err) == 0 && err != E_PARSE)) && clen >= old(clen)
      ensures err == 0 ==> clen == old(clen) + 9 && site == old(clen) + 5
    {
      hide *;
      ghost var n := State();
      EmitBytes([0x48, 0x85, 0xC0]);
      EmitBytes([0x0F, 0x84]);
      site := clen;
      EmitBytes(Le32(0));
      EmitTwice(n, [0x48, 0x85, 0xC0], [0x0F, 0x84]);
      EmitTwice(n, [0x48, 0x85, 0xC0] + [0x0F, 0x84], Le32(0));
      BytesTest(0);
      assert [0x48, 0x85, 0xC0] + [0x0F, 0x84] == [0x48, 0x85, 0xC0, 0x0F, 0x84];
    }

    /** `jmp` with an open distance. */
    method EmitJmp() returns (site: nat)
      requires Valid()
      modifies this`clen, this`err, buf
      ensures Valid() && State() == AfterEmit(old(State()), Bytes([X86.Jmp(0)]))
      ensures (err == old(err) || (old(err) == 0 && err != E_PARSE)) && clen >= old(clen)
      ensures err == 0 ==> clen == old(clen) + 5 && site == old(clen) + 1
    {
      hide *;
      ghost var n := State();
      EmitBytes([0xE9]);
      site := clen;
      EmitBytes(Le32(0));
      EmitTwice(n, [0xE9], Le32(0));
      BytesJmp(0);
    }

    method EmitPrint(newline: bool)
      requires Valid()
      modifies this`clen, this`err, buf
      ensures Valid() && State() == AfterEmit(old(State()), Bytes(PrintCode(newline)))
      ensures (err == old(err) || (old(err) == 0 && err != E_PARSE)) && clen >= old(clen)
    {
      hide *;
      ghost var n := State();
      EmitBytes([0x48, 0x89, 0xC7]);
      if newline {
        EmitBytes([0xBE, 0x01, 0x00, 0x00, 0x00]);
      } else {
        EmitBytes([0x31, 0xF6]);
      }
      EmitBytes([0xB8, 0x20, 0x00, 0x00, 0x00]);
      EmitBytes([0x0F, 0x05]);
      PrintEmitted(n, newline);
    }

    /** Patch and drop all break sites added from index `bbase` on. */
    method CloseBreaks(bbase: nat, endTarget: int)
      requires Valid() && bbase <= |breaks|
      modifies this`breaks, buf
      ensures Valid() && breaks == old(breaks)[..bbase]
      ensures State() == AfterClose(old(State()), bbase, endTarget)
    {
      hide Lex, Table, TokenOf, Patch, PatchAll, Rest, Code;
      ghost var n := State();
      PatchAllNone(if n.Some? then n.value.code else [], endTarget);
      var i := bbase;
      assert breaks[bbase..i] == [];
      while i < |breaks|
        invariant bbase <= i <= |breaks| && Valid() && breaks == old(breaks)
        invariant n.Some? ==> State() == Some(n.value.(code := PatchAll(n.value.code, breaks[bbase..i], endTarget)))
      {
        var site := breaks[i];
        Patch32(site, endTarget - (site + 4));
        if n.Some? { PatchAllSnoc(n.value.code, breaks[bbase..i], site, endTarget); }
        assert breaks[bbase..i] + [site] == breaks[bbase..i + 1];
        i := i + 1;
      }
      assert breaks[bbase..|breaks|] == breaks[bbase..];
      breaks := breaks[..bbase];
    }

    method Stmt()
      requires Valid()
      modifies this, buf
      ensures Valid() && Measure() <= old(Measure()) && (old(err) != 0 ==> err != 0) && old(breaks) <= breaks
      ensures clen >= old(clen)
      ensures old(tok) == Eof || old(tok) == RBrace ==>
        State() == old(State()) && Measure() == old(Measure()) && tok == old(tok)
      ensures old(tok) != Eof && old(tok) != RBrace ==>
                State() == AfterS(old(State())) && (err != 0 || Measure() < old(Measure()))
      ensures old(tok) == Eof || old(tok) == RBrace ==> err == old(err) && Rest() == old(Rest())
      ensures old(tok) != Eof && old(tok) != RBrace ==> Tracks(old(err), err, EndOf(S.ParseStmt(old(Rest()))), Rest())
      decreases Measure(), 6, 1
    {
      hide *;
      if tok == Eof || tok == RBrace { return; }
      StmtHead();
      ghost var e0, ts := err, Rest();
      if tok == Semi {
        EmptyStart();
        EmptyEnd(ts);
        Next();
      } else if tok == Let {
        StmtLet();
      } else if tok == Tk.Print || tok == Println {
        StmtPrint(tok == Println);
      } else if tok == If || tok == While || tok == Loop || tok == Break {
        StmtFlow();
      } else {
        OtherToken(tok);
        NoStart();
        Reject();
        Rejected(e0, err, EndOf(S.ParseStmt(ts)), Rest());
      }
    }

    /** The statements that jump. */
    method StmtFlow()
      requires Valid() && (tok == If || tok == While || tok == Loop || tok == Break)
      modifies this, buf
      ensures Valid() && Measure() < old(Measure()) && (old(err) != 0 ==> err != 0) && old(breaks) <= breaks
      ensures clen >= old(clen)
      ensures State() == AfterS(old(State()))
      ensures Tracks(old(err), err, EndOf(S.ParseStmt(old(Rest()))), Rest())
      decreases Measure(), 6, 0
    {
      hide *;
      match tok
      case If => StmtIf();
      case While => StmtWhile();
      case Loop => StmtLoop();
      case Break => StmtBreak();
    }

    method StmtLet()
      requires Valid() && tok == Let
      modifies this, buf
      ensures Valid() && Measure() < old(Measure()) && (old(err) != 0 ==> err != 0) && old(breaks) <= breaks
      ensures clen >= old(clen)
      ensures State() == AfterS(old(State()))
      ensures Tracks(old(err), err, EndOf(S.ParseStmt(old(Rest()))), Rest())
      decreases Measure(), 5
    {
      hide Lex, Table, AfterE, AfterS, AfterEmit, AfterNext, AfterDeclare, AfterEat, ExprSemiSpec, Bytes, State;
      hide Measure, TokenOf, Slot, Disp, Name, Valid, Rest, Tracks, EndOf, LetEnd, S.ParseStmt, Dropped;
      LetStart();
      StmtHead();
      ghost var e0, ts := err, Rest();
      Next();
      ghost var e1, r := err, Rest();
      NextIdent();
      if tok != Ident {
        Reject();
        Rejected(e1, err, None, Rest());
        LetTracks(e0, e1, err, ts, r, Rest());
        return;
      }
      LetRest();
      LetTracks(e0, e1, err, ts, r, Rest());
    }

    method LetRest()
      requires Valid() && tok == Ident
      modifies this, buf
      ensures Valid() && Measure() <= old(Measure()) && (old(err) != 0 ==> err != 0) && old(breaks) <= breaks
      ensures clen >= old(clen)
      ensures old(err) == 0 ==>
                State() == AfterEmit(ExprSemiSpec(AfterEat(AfterNext(AfterDeclare(old(State()), old(Name()))), S.TEq)),
                                     Bytes([X86.StoreRax(Disp(old(Slot(Table(src, vars), Name()))))]))
      ensures Tracks(old(err), err, LetEnd(old(Rest())), Rest())
      decreases Measure(), 5
    {
      hide *;
      NoneStays();
      ExprSemiNone();
      ghost var e0, ts := err, Rest();
      var slot := LetName();
      ghost var e1, r := err, Rest();
      ExprSemi();
      ghost var e2 := err;
      LetRestTracks(e0, e1, e2, ts, r, Rest());
      StoreLocal(slot);
      QuietAfter(e0, e2, err, LetEnd(ts), Rest());
    }

    /** The name and the equals sign of an assignment. */
    method LetName() returns (slot: nat)
      requires Valid() && tok == Ident
      modifies this
      ensures Valid() && Measure() <= old(Measure()) && (old(err) != 0 ==> err != 0) && breaks == old(breaks)
      ensures clen == old(clen)
      ensures old(err) == 0 ==> State() == AfterEat(AfterNext(AfterDeclare(old(State()), old(Name()))), S.TEq)
      ensures State().Some? ==> old(err) == 0 && slot == old(Slot(Table(src, vars), Name()))
      ensures Tracks(old(err), err, Eaten(Dropped(old(Rest())), S.TEq), Rest())
    {
      hide *;
      Punctuation();
      NoneStays();
      RestHead();
      ghost var e0, ts := err, Rest();
      slot := NameSlot();
      ghost var e1 := err;
      Next();
      ghost var e2, r := err, Rest();
      QuietBefore(e0, e1, e2, Some(Dropped(ts)), r);
      var _ := Eat(Eq);
      NameTracks(e0, e2, err, ts, r, Rest());
    }

    method ExprSemi()
      requires Valid()
      modifies this, buf
      ensures Valid() && Measure() <= old(Measure()) && (old(err) != 0 ==> err != 0) && breaks == old(breaks)
      ensures clen >= old(clen)
      ensures State() == ExprSemiSpec(old(State()))
      ensures Tracks(old(err), err, EndOf(S.ParseExprSemi(old(Rest()))), Rest())
      decreases Measure(), 4
    {
      hide Lex, Table, AfterE, AfterEat, State, Measure, TokenOf, Name, Valid, Rest, Tracks, EndOf, Eaten, S.Parse;
      hide S.ParseExprSemi;
      Punctuation();
      ghost var e0, ts := err, Rest();
      Expr();
      ghost var e1, r1 := err, Rest();
      var _ := Eat(Semi);
      ExprSemiTracks(e0, e1, err, ts, r1, Rest());
    }

    method StmtPrint(nl: bool)
      requires Valid() && tok == if nl then Println else Tk.Print
      modifies this, buf
      ensures Valid() && Measure() < old(Measure()) && (old(err) != 0 ==> err != 0) && old(breaks) <= breaks
      ensures clen >= old(clen)
      ensures State() == AfterS(old(State()))
      ensures Tracks(old(err), err, EndOf(S.ParseStmt(old(Rest()))), Rest())
      decreases Measure(), 5
    {
      hide Lex, Table, AfterE, AfterS, AfterEmit, AfterNext, AfterEat, ExprSemiSpec, Bytes, State, Measure, TokenOf;
      hide PrintCode, Name, Valid, Rest, Tracks, EndOf, S.ParseStmt, Dropped;
      PrintStart(nl);
      StmtHead();
      ghost var e0, ts := err, Rest();
      Next();
      ghost var e1, r := err, Rest();
      ExprSemi();
      ghost var e2 := err;
      PrintTracks(e0, e1, e2, ts, r, Rest());
      EmitPrint(nl);
      QuietAfter(e0, e2, err, EndOf(S.ParseStmt(ts)), Rest());
    }

    method StmtIf()
      requires Valid() && tok == If
      modifies this, buf
      ensures Valid() && Measure() < old(Measure()) && (old(err) != 0 ==> err != 0) && old(breaks) <= breaks
      ensures clen >= old(clen)
      ensures State() == AfterS(old(State()))
      ensures Tracks(old(err), err, EndOf(S.ParseStmt(old(Rest()))), Rest())
      decreases Measure(), 5
    {
      hide *;
      IfStart();
      IfSpecIs(State());
      StmtHead();
      ghost var e0, ts := err, Rest();
      var siteElse := Guarded();
      ghost var e1, r := err, Rest();
      ElsePart(siteElse);
      IfTracks(e0, e1, err, ts, r, Rest());
    }

    /** What follows the block of a conditional. */
    method ElsePart(siteElse: nat)
      requires Valid() && (err == 0 ==> siteElse + 4 <= clen)
      modifies this, buf
      ensures Valid() && Measure() <= old(Measure()) && (old(err) != 0 ==> err != 0) && old(breaks) <= breaks
      ensures clen >= old(clen)
      ensures old(err) == 0 ==> State() == IfTail(old(State()), siteElse)
      ensures Tracks(old(err), err, ElseEnd(old(Rest())), Rest())
      decreases Measure(), 4, 1
    {
      hide *;
      ElseHere();
      ElseEndIs(Rest());
      if err == 0 { IfTailIs(State(), siteElse); }
      NoBadToken();
      if tok == Else {
        StmtElse(siteElse);
      } else {
        var endTarget: int := clen;
        Patch32(siteElse, endTarget - (siteElse + 4));
      }
    }

    /** A keyword, a condition, the test with an open jump, and a block. */
    method Guarded() returns (site: nat)
      requires Valid() && tok != Eof
      modifies this, buf
      ensures Valid() && Measure() < old(Measure()) && (old(err) != 0 ==> err != 0) && old(breaks) <= breaks
      ensures clen >= old(clen)
      ensures var n1 := AfterE(AfterNext(old(State())), 0);
              && State() == AfterB(AfterEmit(n1, Bytes([X86.TestRaxRax, X86.Je(0)])))
              && (err == 0 ==> n1.Some? && site == |n1.value.code| + 5 && site + 4 <= clen)
      ensures Tracks(old(err), err, EndOf(S.ParseGuarded(Dropped(old(Rest())))), Rest())
      decreases Measure(), 4
    {
      hide Lex, Table, AfterE, AfterB, AfterEmit, AfterNext, Bytes, State, Measure, TokenOf, Name, Valid;
      hide Rest, Tracks, EndOf, S.ParseGuarded, S.ParseBlock, S.Parse, Dropped;
      RestHead();
      ghost var e0, ts := err, Rest();
      Next();
      ghost var e1, r1 := err, Rest();
      Expr();
      ghost var e2, r2 := err, Rest();
      site := EmitTest();
      ghost var e3 := err;
      QuietAfter(e1, e2, e3, EndOf(S.Parse(r1, 0)), r2);
      Block();
      GuardedTracks(e0, e1, e3, err, ts, r1, r2, Rest());
    }

    method StmtElse(siteElse: nat)
      requires Valid() && tok == Else && (err == 0 ==> siteElse + 4 <= clen)
      modifies this, buf
      ensures Valid() && Measure() < old(Measure()) && (old(err) != 0 ==> err != 0) && old(breaks) <= breaks
      ensures clen >= old(clen)
      ensures old(err) == 0 ==> State() == ElseSpec(old(State()), siteElse)
      ensures Tracks(old(err), err, EndOf(S.ParseBlock(Dropped(old(Rest())))), Rest())
      decreases Measure(), 4, 0
    {
      hide *;
      if err == 0 { ElseSpecIs(State(), siteElse); }
      ghost var e0, ts := err, Rest();
      var siteEnd := ElseJump(siteElse);
      ghost var e1, r := err, Rest();
      Block();
      BlockBehind(e0, e1, err, ts, r, Rest());
      var endTarget: int := clen;
      Patch32(siteEnd, endTarget - (siteEnd + 4));
    }

    /** The jump over the else branch, behind which the conditional jump lands. */
    method ElseJump(siteElse: nat) returns (siteEnd: nat)
      requires Valid() && tok == Else && (err == 0 ==> siteElse + 4 <= clen)
      modifies this, buf
      ensures Valid() && Measure() < old(Measure()) && (old(err) != 0 ==> err != 0) && breaks == old(breaks)
      ensures clen >= old(clen) && (err == 0 ==> siteEnd == old(clen) + 1 && siteEnd + 4 <= clen)
      ensures var n := AfterEmit(AfterNext(old(State())), Bytes([X86.Jmp(0)]));
              State() == if n.None? then None else AfterPatch(n, siteElse, |n.value.code| - (siteElse + 4))
      ensures Tracks(old(err), err, Some(Dropped(old(Rest()))), Rest())
    {
      hide *;
      RestHead();
      ghost var e0, end := err, Some(Dropped(Rest()));
      Next();
      ghost var e1 := err;
      siteEnd := EmitJmp();
      QuietAfter(e0, e1, err, end, Rest());
      var elseTarget: int := clen;
      Patch32(siteElse, elseTarget - (siteElse + 4));
      PatchNone(siteElse, elseTarget - (siteElse + 4));
    }

    method StmtWhile()
      requires Valid() && tok == While
      modifies this, buf
      ensures Valid() && Measure() < old(Measure()) && (old(err) != 0 ==> err != 0) && old(breaks) <= breaks
      ensures clen >= old(clen)
      ensures State() == AfterS(old(State()))
      ensures Tracks(old(err), err, EndOf(S.ParseStmt(old(Rest()))), Rest())
      decreases Measure(), 5
    {
      hide *;
      WhileStart();
      WhileSpecIs(State());
      StmtHead();
      WhileEnd(Rest());
      ghost var e0, ts := err, Rest();
      var top, bbase := clen, |breaks|;
      var siteEnd := Guarded();
      ghost var e1 := err;
      EndLoop(top, Some(siteEnd), bbase);
      QuietAfter(e0, e1, err, EndOf(S.ParseStmt(ts)), Rest());
    }

    /** The jump back to `top`, the patch of the guard's jump, and the breaks. */
    method EndLoop(top: nat, siteEnd: Option<nat>, bbase: nat)
      requires Valid() && bbase <= |breaks| && (err == 0 && siteEnd.Some? ==> siteEnd.value + 4 <= clen)
      modifies this`clen, this`err, this`breaks, buf
      ensures Valid() && breaks == old(breaks)[..bbase] && clen >= old(clen)
      ensures err == old(err) || (old(err) == 0 && err != E_PARSE)
      ensures var n := AfterEmit(old(State()), Bytes([X86.Jmp(0)]));
              && (n.Some? ==> |n.value.code| >= 4)
              && State() == if n.None? then None else CloseLoop(n, top, |n.value.code| - 4, siteEnd, bbase)
    {
      hide Lex, Table, AfterEmit, AfterPatch, AfterClose, Bytes, State, TokenOf, Name, Valid;
      var siteBack := EmitJmp();
      Patch32(siteBack, top - (siteBack + 4));
      var endTarget: int := clen;
      if siteEnd.Some? {
        Patch32(siteEnd.value, endTarget - (siteEnd.value + 4));
      }
      CloseBreaks(bbase, endTarget);
    }

    method StmtLoop()
      requires Valid() && tok == Loop
      modifies this, buf
      ensures Valid() && Measure() < old(Measure()) && (old(err) != 0 ==> err != 0) && old(breaks) <= breaks
      ensures clen >= old(clen)
      ensures State() == AfterS(old(State()))
      ensures Tracks(old(err), err, EndOf(S.ParseStmt(old(Rest()))), Rest())
      decreases Measure(), 5
    {
      hide *;
      LoopWordStart();
      LoopSpecIs(State());
      StmtHead();
      CompilerErrors.LoopEnd(Rest());
      ghost var e0, ts := err, Rest();
      Next();
      ghost var e1, r := err, Rest();
      var top := clen;
      var bbase := |breaks|;
      Block();
      ghost var e2 := err;
      BlockBehind(e0, e1, e2, ts, r, Rest());
      EndLoop(top, None, bbase);
      QuietAfter(e0, e2, err, EndOf(S.ParseStmt(ts)), Rest());
    }

    method StmtBreak()
      requires Valid() && tok == Break
      modifies this, buf
      ensures Valid() && Measure() < old(Measure()) && (old(err) != 0 ==> err != 0) && old(breaks) <= breaks
      ensures clen >= old(clen)
      ensures State() == AfterS(old(State()))
      ensures Tracks(old(err), err, EndOf(S.ParseStmt(old(Rest()))), Rest())
      decreases Measure(), 5
    {
      hide *;
      StmtStart();
      ghost var e0, end := err, EndOf(S.ParseStmt(Rest()));
      BreakWord();
      ghost var e1 := err;
      EmitBreak();
      QuietAfter(e0, e1, err, end, Rest());
    }

    /** The keyword and its semicolon. */
    method BreakWord()
      requires Valid() && tok == Break
      modifies this
      ensures Valid() && Measure() < old(Measure()) && (old(err) != 0 ==> err != 0) && breaks == old(breaks)
      ensures clen == old(clen) && State() == AfterEat(AfterNext(old(State())), S.TSemi)
      ensures Tracks(old(err), err, EndOf(S.ParseStmt(old(Rest()))), Rest())
    {
      hide *;
      StmtHead();
      Punctuation();
      ghost var e0, ts := err, Rest();
      Next();
      ghost var e1, r := err, Rest();
      var _ := Eat(Semi);
      BreakTracks(e0, e1, err, ts, r, Rest());
    }

    method EmitBreak()
      requires Valid()
      modifies this`clen, this`err, this`breaks, buf
      ensures Valid() && old(breaks) <= breaks && clen >= old(clen)
      ensures err == old(err) || (old(err) == 0 && err != E_PARSE)
      ensures State() == AfterBreak(old(State()))
    {
      hide Lex, Table, Bytes, TokenOf, Name, Rest, Code, AfterEmit, AfterBreak;
      ghost var n := State();
      var site := EmitJmp();
      BreakRecorded(n);
      if |breaks| < MAX_BREAKS {
        breaks := breaks + [site];
      } else {
        Fail(E_OVERFLOW);
      }
    }

    method Block()
      requires Valid()
      modifies this, buf
      ensures Valid() && Measure() <= old(Measure()) && (old(err) != 0 ==> err != 0) && old(breaks) <= breaks
      ensures clen >= old(clen)
      ensures State() == AfterB(old(State()))
      ensures Tracks(old(err), err, EndOf(S.ParseBlock(old(Rest()))), Rest())
      decreases Measure(), 7, 1
    {
      hide *;
      BlockParsed(State());
      Punctuation();
      ghost var e0, ts := err, Rest();
      var _ := Eat(LBrace);
      ghost var e1, r1 := err, Rest();
      Stmts();
      ghost var e2, r2 := err, Rest();
      var _ := Eat(RBrace);
      BlockTracks(e0, e1, e2, err, ts, r1, r2, Rest());
    }

    /** The statements of a block. */
    method Stmts()
      requires Valid()
      modifies this, buf
      ensures Valid() && Measure() <= old(Measure()) && (old(err) != 0 ==> err != 0) && old(breaks) <= breaks
      ensures clen >= old(clen)
      ensures State() == AfterStmts(old(State()))
      ensures Tracks(old(err), err, EndOf(S.ParseStmts(old(Rest()))), Rest())
      decreases Measure(), 7, 0
    {
      hide Lex, Table, AfterB, AfterS, AfterStmts, AfterEat, State, Measure, TokenOf, Name, Valid;
      hide Rest, Tracks, Ongoing, EndOf, S.ParseStmt, S.ParseStmts, S.ParseBlock, Dropped, Eaten;
      ghost var n0, e0, end := State(), err, EndOf(S.ParseStmts(Rest()));
      NoBadToken();
      StmtsBegin(e0, e0, Rest(), Rest());
      while tok != RBrace && tok != Eof && err == 0
        invariant Valid() && Measure() <= old(Measure()) && (old(err) != 0 ==> err != 0) && old(breaks) <= breaks
        invariant clen >= old(clen) && AfterStmts(State()) == AfterStmts(n0) && Ongoing(e0, err, end, Rest())
        decreases Measure(), err == 0
      {
        MoreStmts();
        StmtHead();
        ghost var e1, r1 := err, Rest();
        Stmt();
        StmtsTurn(e0, e1, err, end, r1, Rest());
      }
      StmtsEnd();
      AtEnd();
      StmtsLeft(e0, err, end, Rest());
    }

    method EmitPrologue()
      requires Valid()
      modifies this`clen, this`err, buf
      ensures err == old(err) || (old(err) == 0 && err != E_PARSE)
      ensures Valid() && State() == AfterEmit(old(State()), Bytes(PROLOGUE))
    {
      hide *;
      ghost var n := State();
      Emit(0x55);
      EmitBytes([0x48, 0x89, 0xE5]);
      EmitBytes([0x48, 0x81, 0xEC]);
      EmitBytes(Le32(FRAME_BYTES));
      PrologueEmitted(n);
    }

    method EmitExit()
      requires Valid()
      modifies this`clen, this`err, buf
      ensures err == old(err) || (old(err) == 0 && err != E_PARSE)
      ensures Valid() && State() == AfterEmit(old(State()), Bytes(EPILOGUE))
    {
      hide *;
      ghost var n := State();
      EmitBytes([0x31, 0xFF]);
      EmitBytes([0xB8, 0x06, 0x00, 0x00, 0x00]);
      EmitBytes([0x0F, 0x05]);
      EpilogueEmitted(n);
    }

    /** The whole program.  A `}` at top level is never consumed by Stmt, so the statement loop
        would repeat it forever; that outcome is reported as `hangs`. */
    method Program() returns (hangs: bool)
      requires Valid() && pos == 0 && State() == Some(Snap([], [], [], []))
      modifies this, buf
      ensures Valid()
      ensures var n := AfterStmts(Started(src));
              if n.Some? && n.value.rest != []
              then hangs && tok == RBrace && State() == n
              else !hangs && State() == AfterEmit(n, Bytes(EPILOGUE))
      ensures err == E_PARSE ==> S.ParseStmts(Lex(src, 0)).None?
    {
      hide Table, AfterStmts, AfterS, AfterEmit, Bytes, Measure, TokenOf, Name, PROLOGUE, EPILOGUE;
      ghost var n0, end := State(), EndOf(S.ParseStmts(Lex(src, 0)));
      EmitPrologue();
      PrologueFits();
      ghost var e1 := err;
      Next();
      hide State, Valid, Rest, Tracks, Ongoing, EndOf, S.ParseStmts, S.ParseStmt;
      QuietBefore(0, e1, err, Some(Lex(src, 0)), Rest());
      StmtsBegin(0, err, Lex(src, 0), Rest());
      while tok != Eof && err == 0
        invariant Valid() && AfterStmts(State()) == AfterStmts(Started(src)) && Ongoing(0, err, end, Rest())
        decreases Measure(), err == 0
      {
        if tok == RBrace {
          StmtsEnd();
          TopLevelBrace();
          hangs := true;
          return;
        }
        MoreStmts();
        StmtHead();
        ghost var e2, r2 := err, Rest();
        Stmt();
        StmtsTurn(0, e2, err, end, r2, Rest());
      }
      StmtsEnd();
      AtEnd();
      hangs := false;
      SyntaxError(err, S.ParseStmts(Lex(src, 0)), Rest());
      EmitExit();
    }

    lemma TopLevelBrace()
      requires Valid() && tok == RBrace && err == 0
      ensures State().value.rest != []
    {
      hide Lex, Table, Code;
      TokenIsHead();
    }

    lemma AtEnd()
      requires Valid()
      ensures tok == Eof && err == 0 ==> State().value.rest == []
      ensures tok == Eof <==> Rest() == []
      ensures tok == RBrace ==> Rest() != [] && Rest()[0] == S.TRBrace
    {
      hide Lex, Table, Code;
      RestHead();
      if err == 0 { TokenIsHead(); }
    }

    // ----- What the current token says about the tokens left -----

    /** The tokens of the punctuation kinds. */
    lemma OtherToken(tk: Tk)
      ensures StartsStmt(tk) <==>
        tk == Semi || tk == Let || tk == Tk.Print || tk == Println || tk == If || tk == While || tk == Loop ||
          tk == Break
    {
    }

    lemma EmptyStart()
      requires Valid() && tok == Semi
      ensures AfterS(State()) == AfterNext(State())
    {
      hide *;
      NoneStays();
      StmtStart();
    }

    predicate StartsStmt(tk: Tk) {
      tk == Semi || tk == Let || tk == Tk.Print || tk == Println || tk == If || tk == While || tk == Loop || tk == Break
    }

    /** The token that the tokens left begin with, where a statement starts. */
    lemma StmtHead()
      requires Valid() && tok != Eof
      ensures Rest() != [] && Dropped(Rest()) == Lex(src, pos)
      ensures tok == Semi ==> Rest()[0] == S.TSemi
      ensures tok == Let ==> Rest()[0] == S.TLet
      ensures tok == Tk.Print ==> Rest()[0] == S.TPrint
      ensures tok == Println ==> Rest()[0] == S.TPrintln
      ensures tok == If ==> Rest()[0] == S.TIf
      ensures tok == While ==> Rest()[0] == S.TWhile
      ensures tok == Loop ==> Rest()[0] == S.TLoop
      ensures tok == Break ==> Rest()[0] == S.TBreak
      ensures tok == RBrace <==> Rest()[0] == S.TRBrace
      ensures !StartsStmt(tok) ==> EndOf(S.ParseStmt(Rest())).None?
    {
      RestHead();
      hide Lex, Rest, S.ParseStmt;
      if !StartsStmt(tok) {
        OtherStmt(tok, num, Name());
        NoStmt(Rest());
      }
    }

    lemma NoStart()
      requires Valid() && !StartsStmt(tok) && tok != Eof && tok != RBrace
      ensures AfterS(State()) == None
    {
      StmtStart();
      hide *;
    }

    lemma Punctuation()
      ensures Plain(Semi) && Plain(Eq) && Plain(LBrace) && Plain(RBrace)
      ensures PlainToken(Semi) == S.TSemi && PlainToken(Eq) == S.TEq && PlainToken(LBrace) == S.TLBrace
      ensures PlainToken(RBrace) == S.TRBrace
    {
    }

    /** What compiling a statement amounts to, by the token it starts with. */
    lemma StmtStart()
      requires Valid()
      ensures err != 0 ==> AfterS(State()) == None
      ensures err == 0 && tok != Eof && tok != RBrace ==>
                AfterS(State()) ==
                match tok
                case Semi => AfterNext(State())
                case Let => LetSpec(State())
                case Print => PrintSpec(State(), false)
                case Println => PrintSpec(State(), true)
                case If => IfSpec(State())
                case While => WhileSpec(State())
                case Loop => LoopSpec(State())
                case Break => AfterBreak(AfterEat(AfterNext(State()), S.TSemi))
                case _ => None
    {
      hide Lex, Table, AfterNext, LetSpec, PrintSpec, IfSpec, WhileSpec, LoopSpec, AfterBreak, AfterEat, FinishS,
           S.ParseBlock, S.ParseGuarded, S.ParseExprSemi, S.ParsePrint, Code, State;
      if err == 0 {
        TokenIsHead();
        var s := State().value;
        match tok
        case Semi => EmptyParsed(s);
        case Let => LetParsed(s);
        case Print => PrintParsed(s, false);
        case Println => PrintParsed(s, true);
        case If => IfParsed(s);
        case While => WhileParsed(s);
        case Loop => LoopParsed(s);
        case Break => BreakParsed(s);
        case _ =>
      }
    }

    lemma IfStart()
      requires Valid() && tok == If
      ensures AfterS(State()) == if err != 0 then None else IfSpec(State())
    {
      hide *;
      StmtStart();
    }

    lemma WhileStart()
      requires Valid() && tok == While
      ensures AfterS(State()) == if err != 0 then None else WhileSpec(State())
    {
      hide *;
      StmtStart();
    }

    lemma LoopWordStart()
      requires Valid() && tok == Loop
      ensures AfterS(State()) == if err != 0 then None else LoopSpec(State())
    {
      hide *;
      StmtStart();
    }

    lemma LetStart()
      requires Valid() && tok == Let
      ensures AfterS(State()) == if err != 0 then None else LetSpec(State())
    {
      hide *;
      StmtStart();
    }

    lemma PrintStart(nl: bool)
      requires Valid() && tok == if nl then Println else Tk.Print
      ensures AfterS(State()) == if err != 0 then None else PrintSpec(State(), nl)
    {
      hide *;
      StmtStart();
    }

    lemma ElseHere()
      requires Valid()
      ensures err == 0 ==> (tok == Else <==> S.Head(State().value.rest) == Some(S.TElse))
      ensures tok == Else <==> S.Head(Rest()) == Some(S.TElse)
    {
      hide Lex, Table, Code;
      if err == 0 { TokenIsHead(); }
    }

    lemma NextIdent()
      requires Valid()
      ensures tok == Ident <==> Rest() != [] && Rest()[0].TIdent?
      ensures err == 0 ==> (tok == Ident <==> State().value.rest != [] && State().value.rest[0].TIdent?)
      ensures err == 0 && tok == Ident ==> State().value.rest[0].name == Name()
      ensures err == 0 ==> State().value.vars == Table(src, vars)
    {
      hide Lex, Table, Code;
    }

    /** No rejected character is ever the current token. */
    lemma NoBadToken()
      requires Valid()
      ensures Tracks(err, err, Some(Rest()), Rest())
    {
      RestHead();
      hide Lex, Rest;
      if tok != Eof { NotBad(tok, num, Name()); }
    }

    lemma MoreStmts()
      requires Valid() && tok != RBrace && tok != Eof && err == 0
      ensures AfterStmts(State()) == AfterStmts(AfterS(State()))
    {
      hide Lex, Table, Code, AfterS;
      TokenIsHead();
    }

    lemma StmtsEnd()
      requires Valid()
      ensures tok == RBrace || tok == Eof || err != 0 ==> AfterStmts(State()) == State()
    {
      hide Lex, Table, Code, AfterS;
      if err == 0 { TokenIsHead(); }
    }

    lemma StateRest()
      requires Valid()
      ensures err == 0 ==> State().value.rest == Rest()
    {
      hide Rest;
    }

    lemma Operator0()
      requires Valid()
      ensures err == 0 ==> S.OpAt(State().value.rest, 0) == S.OpAt(Rest(), 0) == OperatorToken(tok, 0)
    {
      hide Lex, Table, Code, Rest, State, TokenOf, SlicesOk, S.OpAt, OperatorToken;
      if err == 0 {
        TokenIsHead();
        OperatorOf(State().value.rest, tok, num, Name(), 0);
        StateRest();
      }
    }

    lemma Operator1()
      requires Valid()
      ensures err == 0 ==> S.OpAt(State().value.rest, 1) == S.OpAt(Rest(), 1) == OperatorToken(tok, 1)
    {
      hide Lex, Table, Code, Rest, State, TokenOf, SlicesOk, S.OpAt, OperatorToken;
      if err == 0 {
        TokenIsHead();
        OperatorOf(State().value.rest, tok, num, Name(), 1);
        StateRest();
      }
    }

    lemma Operator2()
      requires Valid()
      ensures err == 0 ==> S.OpAt(State().value.rest, 2) == S.OpAt(Rest(), 2) == OperatorToken(tok, 2)
    {
      hide Lex, Table, Code, Rest, State, TokenOf, SlicesOk, S.OpAt, OperatorToken;
      if err == 0 {
        TokenIsHead();
        OperatorOf(State().value.rest, tok, num, Name(), 2);
        StateRest();
      }
    }

    /** What kind of atom the tokens left begin with. */
    lemma AtomHead()
      requires Valid()
      ensures tok == Num || tok == Ident ==> EndOf(S.Parse(Rest(), 3)) == Some(Dropped(Rest()))
      ensures tok == Num ==> Dropped(Rest()) == Lex(src, pos)
      ensures tok == LParen || tok == Minus ==> Rest() != []
      ensures tok == LParen ==> Rest()[0] == S.TLParen
      ensures tok == Minus ==> Rest()[0] == S.TMinus
      ensures tok != Num && tok != Ident && tok != LParen && tok != Minus ==> EndOf(S.Parse(Rest(), 3)).None?
    {
      RestHead();
      hide Lex, S.Parse, Rest, TokenOf;
      if tok != Eof { AtomToken(tok, num, Name()); }
      if tok == Num || tok == Ident {
        SimpleAtom(Rest());
      } else if tok != LParen && tok != Minus {
        NoAtom(Rest());
      }
    }

    lemma AtomStart()
      requires Valid()
      ensures err != 0 ==> AfterE(State(), 3) == None
      ensures err == 0 ==>
                AfterE(State(), 3) ==
                match tok
                case Num => AfterEmit(AfterNext(State()), Bytes([X86.MovRaxImm(num)]))
                case Ident => AfterEmit(AfterNext(AfterDeclare(State(), Name())),
                  Bytes([X86.LoadRax(Disp(Slot(Table(src, vars), Name())))]))
                case LParen => AfterEat(AfterE(AfterNext(State()), 0), S.TRParen)
                case Minus => AfterEmit(AfterE(AfterNext(State()), 3), Bytes([X86.NegRax]))
                case _ => None
    {
      hide Lex, Table, AfterEmit, AfterNext, AfterDeclare, AfterEat, Bytes, S.Parse, FinishE, Slot;
      if err == 0 {
        TokenIsHead();
        AtomParsed(State().value);
      }
    }
  }

  // ----- Whole sources -----

  /** State after the prologue and the first token. */
  function Started(src: Source): Now {
    Seal(Lex(src, 0), [], Bytes(PROLOGUE), [])
  }

  lemma PrologueFits()
    ensures AfterEmit(Some(Snap([], [], [], [])), Bytes(PROLOGUE)) == Some(Snap([], [], Bytes(PROLOGUE), []))
    ensures |Bytes(PROLOGUE)| == 11
  {
    hide Bytes;
    SizeOfEnds();
    SizeIs(PROLOGUE);
    assert [] + Bytes(PROLOGUE) == Bytes(PROLOGUE);
  }

  /** A statement list within the compiler's limits. */
  predicate Fits(b: S.Block, size: nat) {
    |DeclareB([], b)| <= MAX_LOCALS && size <= MAX_CODE && PeakB(b) <= MAX_BREAKS
  }

  /** `src` is the program `b` and compiles. */
  predicate Accepted(src: Source, b: S.Block) {
    S.ParseProgram(Lex(src, 0)) == Some(b) && Fits(b, SizeP(b))
  }

  /** `src` is statements followed by an unmatched `}`, and those statements compile. */
  predicate Unmatched(src: Source) {
    match S.ParseStmts(Lex(src, 0))
    case None => false
    case Some((b, rest)) => rest != [] && Fits(b, 11 + SizeB(b))
  }

  /** The state after all statements. */
  lemma ProgramState(src: Source)
    ensures AfterStmts(Started(src)) ==
            match S.ParseStmts(Lex(src, 0))
            case None => None
            case Some((b, rest)) => if Fits(b, 11 + SizeB(b))
              then FinishB(Snap(Lex(src, 0), [], Bytes(PROLOGUE), []), b, rest) else None
    ensures forall b :: FinishB(Snap(Lex(src, 0), [], Bytes(PROLOGUE), []), b, []).Some? <==> Fits(b, 11 + SizeB(b))
  {
    hide Lex, S.ParseStmts, FinishB, Bytes, AfterStmts, DeclareB, SizeB, PeakB;
    PrologueFits();
    var ts := Lex(src, 0);
    var s := Snap(ts, [], Bytes(PROLOGUE), []);
    forall b ensures FinishB(s, b, []).Some? <==> Fits(b, 11 + SizeB(b)) { FinishBFits(s, b, []); }
    if S.Head(ts) == Some(S.TBad) {
      BadStmts(ts);
      AfterStmtsNone();
    } else {
      StmtsParsed(s);
      if S.ParseStmts(ts).Some? {
        FinishBFits(s, S.ParseStmts(ts).value.0, S.ParseStmts(ts).value.1);
      }
    }
  }

  /** The image of a program is what the compiler has emitted for it. */
  lemma ImageIs(b: S.Block, n: Now, src: Source)
    requires Fits(b, 11 + SizeB(b)) && n == FinishB(Snap(Lex(src, 0), [], Bytes(PROLOGUE), []), b, [])
    ensures Declares(DeclareB([], b), NamesB(b)) && Distinct(DeclareB([], b))
    ensures var e := AfterEmit(n, Bytes(EPILOGUE));
            && (e.Some? <==> SizeP(b) <= MAX_CODE)
            && (e.Some? ==> e.value.code == Image(b, DeclareB([], b)))
  {
    hide Lex, Bytes, CodeB, DeclareB, SizeB, PeakB, SitesB, CountB;
    var vars := DeclareB([], b);
    DeclareBGrows([], b);
    FinishBFits(Snap(Lex(src, 0), [], Bytes(PROLOGUE), []), b, []);
    EmitBSize(b, []);
    PrologueFits();
    SizeOfEnds();
    SizeIs(EPILOGUE);
    BytesConcat(PROLOGUE, CodeB(b, vars, None) + EPILOGUE);
    BytesConcat(CodeB(b, vars, None), EPILOGUE);
    assert Bytes(PROLOGUE) + EmitB(b, []) + Bytes(EPILOGUE) == Bytes(PROLOGUE) + (EmitB(b, []) + Bytes(EPILOGUE));
  }

  datatype Verdict = Compiled(len: nat) | Failed(code: int) | Hangs

  /** Compile `src` into `buf`: it succeeds exactly on the accepted sources, leaving the image of
      the parsed program behind the headers, and runs forever exactly on the unmatched ones. */
  method Compile(src: Source, buf: array<byte>) returns (r: Verdict)
    requires buf.Length == ELF_BUF_SIZE
    modifies buf
    ensures r.Compiled? <==> exists b :: Accepted(src, b)
    ensures r.Hangs? <==> Unmatched(src)
    ensures r.Failed? ==> r.code == E_PARSE || r.code == E_OVERFLOW || r.code == E_TOOMANY_VARS
    ensures r == Failed(E_PARSE) ==> S.ParseStmts(Lex(src, 0)).None?
    ensures forall b :: Accepted(src, b) ==>
              && Declares(DeclareB([], b), NamesB(b))
              && r == Compiled(|Image(b, DeclareB([], b))|)
              && CODE_OFF + r.len <= ELF_BUF_SIZE
              && buf[CODE_OFF..CODE_OFF + r.len] == Image(b, DeclareB([], b))
  {
    hide Lex, Table, AfterStmts, AfterEmit, FinishB, Bytes, S.ParseStmts, Fits, TokenOf, SizeP, SizeB, Started, Image;
    hide CodeB, DeclareB, NamesB, S.ParseProgram;
    var c := new Comp(src, buf);
    var hangs := c.Program();
    ProgramState(src);
    Outcomes(src, AfterStmts(Started(src)), AfterEmit(AfterStmts(Started(src)), Bytes(EPILOGUE)));
    if hangs {
      r := Hangs;
    } else if c.err != 0 {
      assert ErrorCode(c.err);
      r := Failed(c.err);
    } else {
      r := Compiled(c.clen);
    }
  }

  /** What the final state says about the source. */
  lemma Outcomes(src: Source, n: Now, e: Now)
    requires n == AfterStmts(Started(src)) && e == AfterEmit(n, Bytes(EPILOGUE))
    ensures n.Some? && n.value.rest != [] <==> Unmatched(src)
    ensures !(n.Some? && n.value.rest != []) ==> (e.Some? <==> exists b :: Accepted(src, b))
    ensures Unmatched(src) ==> forall b :: !Accepted(src, b)
    ensures forall b :: Accepted(src, b) ==>
              Declares(DeclareB([], b), NamesB(b)) && e.Some? && e.value.code == Image(b, DeclareB([], b))
  {
    hide Lex, AfterStmts, AfterEmit, FinishB, Bytes, S.ParseStmts, SizeP, SizeB, Started, Image, CodeB, DeclareB;
    hide NamesB;
    ProgramState(src);
    assert AfterEmit(None, Bytes(EPILOGUE)) == None by { NoneStays(); }
    match S.ParseStmts(Lex(src, 0))
    case None =>
    case Some((b, rest)) =>
      SizePIs(b);
      if Fits(b, 11 + SizeB(b)) {
        FinishBKeeps(Snap(Lex(src, 0), [], Bytes(PROLOGUE), []), b, rest);
        if rest == [] {
          ImageIs(b, n, src);
          assert e.Some? ==> Accepted(src, b);
        }
      }
  }

  lemma SizePIs(b: S.Block)
    ensures SizeP(b) == 20 + SizeB(b)
  {
  }

  lemma FinishBKeeps(s: Snap, b: S.Block, rest: seq<S.Token>)
    ensures FinishB(s, b, rest).Some? ==> FinishB(s, b, rest).value.rest == rest
    ensures FinishB(s, b, []).Some? && (rest == [] || rest[0] == S.TRBrace) ==> FinishB(s, b, rest).Some?
  {
    hide EmitB, DeclareB, SitesB, PeakB;
  }
}
