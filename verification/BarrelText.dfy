/** Writing programs down. A source text is a layout: words that spell tokens, with blanks and comments
    around them. Lexing a layout gives the tokens, and every text is a layout. */
module BarrelText {
  import opened Words
  import opened BarrelSyntax
  import opened BarrelLexer

  // ----- Characters -----

  predicate Numeral(c: byte) { '0' as int <= c <= '9' as int }

  predicate Letter(c: byte) {
    'a' as int <= c <= 'z' as int || 'A' as int <= c <= 'Z' as int || c == '_' as int
  }

  predicate NameByte(c: byte) { Letter(c) || Numeral(c) }

  predicate White(c: byte) { c == ' ' as int || c == '\t' as int || c == '\n' as int || c == '\r' as int }

  /** The lexer's classes of characters are these. */
  lemma ClassesAgree(c: byte)
    ensures IsDigit(c) == Numeral(c) && IsLetter(c) == Letter(c) && IsSpace(c) == White(c)
  {
  }

  // ----- Spelling -----

  /** A word of the language, as the bytes of its letters. */
  function Ascii(s: string): seq<byte> { seq(|s|, i requires 0 <= i < |s| => (s[i] as int) % 256) }

  function Digits(n: nat): (ds: seq<byte>)
    ensures ds != [] && forall i :: 0 <= i < |ds| ==> Numeral(ds[i])
  {
    if n < 10 then [48 + n] else Digits(n / 10) + [48 + n % 10]
  }

  function Spelled(t: Token): seq<byte> {
    match t
    case TNum(n) => Digits(n)
    case TIdent(x) => x
    case TPrint => Ascii("print")
    case TPrintln => Ascii("println")
    case TLet => Ascii("let")
    case TIf => Ascii("if")
    case TElse => Ascii("else")
    case TWhile => Ascii("while")
    case TLoop => Ascii("loop")
    case TBreak => Ascii("break")
    case TEq => Ascii("=")
    case TEqEq => Ascii("==")
    case TNe => Ascii("!=")
    case TLt => Ascii("<")
    case TLe => Ascii("<=")
    case TGt => Ascii(">")
    case TGe => Ascii(">=")
    case TPlus => Ascii("+")
    case TMinus => Ascii("-")
    case TStar => Ascii("*")
    case TSlash => Ascii("/")
    case TLParen => Ascii("(")
    case TRParen => Ascii(")")
    case TLBrace => Ascii("{")
    case TRBrace => Ascii("}")
    case TSemi => Ascii(";")
    case TBad => []
  }

  predicate Keyword(x: Name) {
    x in {Ascii("print"), Ascii("println"), Ascii("let"), Ascii("if"), Ascii("else"), Ascii("while"), Ascii("loop"),
      Ascii("break")}
  }

  /** A name that starts with a letter and is not a keyword. */
  predicate LexableName(x: Name) {
    x != [] && Letter(x[0]) && (forall i :: 0 <= i < |x| ==> NameByte(x[i])) && !Keyword(x)
  }

  predicate Lexable(t: Token) { t != TBad && (t.TIdent? ==> LexableName(t.name)) }

  predicate AllLexable(ts: seq<Token>) { forall i :: 0 <= i < |ts| ==> Lexable(ts[i]) }

  /** The number that a word of digits denotes, of any length. */
  function Number(w: seq<byte>): int {
    if w == [] then 0 else Number(w[..|w| - 1]) * 10 + w[|w| - 1] - '0' as int
  }

  /** The word spells the token; numbers may have leading zeros, and count modulo 2^64. */
  ghost predicate Spells(w: seq<byte>, t: Token) {
    if t.TNum? then w != [] && (forall i :: 0 <= i < |w| ==> Numeral(w[i])) && Wrap(Number(w)) == t.n
    else Lexable(t) && w == Spelled(t)
  }

  /** The byte `c`, or the end of the text when it is 0, does not belong to a token `t` before it. */
  predicate Follows(t: Token, c: byte) {
    if t.TNum? then !Numeral(c)
    else if t.TIdent? || IsKeyword(t) then !NameByte(c)
    else if t == TEq || t == TLt || t == TGt then c != '=' as int
    else if t == TSlash then c != '/' as int
    else true
  }

  predicate IsKeyword(t: Token) {
    t.TPrint? || t.TPrintln? || t.TLet? || t.TIf? || t.TElse? || t.TWhile? || t.TLoop? || t.TBreak?
  }

  function First(s: seq<byte>): byte { if s == [] then 0 else s[0] }

  // ----- The lexer looks ahead only -----

  lemma {:induction false} LineShift(pre: Source, s: Source, i: nat)
    requires i <= |s|
    ensures LineEnd(pre + s, |pre| + i) == |pre| + LineEnd(s, i)
    decreases |s| - i
  {
    if Peek(s, i) != 10 && Peek(s, i) != 0 { LineShift(pre, s, i + 1); }
  }

  lemma {:induction false} BlanksShift(pre: Source, s: Source, i: nat)
    requires i <= |s|
    ensures SkipBlanks(pre + s, |pre| + i) == |pre| + SkipBlanks(s, i)
    decreases |s| - i
  {
    hide LineEnd;
    if IsComment(s, i) {
      LineShift(pre, s, i + 1);
      BlanksShift(pre, s, LineEnd(s, i + 1));
    } else if IsSpace(Peek(s, i)) {
      BlanksShift(pre, s, i + 1);
    }
  }

  lemma {:induction false} DigitsShift(pre: Source, s: Source, i: nat)
    requires i <= |s|
    ensures DigitsEnd(pre + s, |pre| + i) == |pre| + DigitsEnd(s, i)
    decreases |s| - i
  {
    if IsDigit(Peek(s, i)) { DigitsShift(pre, s, i + 1); }
  }

  lemma {:induction false} NameShift(pre: Source, s: Source, i: nat)
    requires i <= |s|
    ensures NameEnd(pre + s, |pre| + i) == |pre| + NameEnd(s, i)
    decreases |s| - i
  {
    if IsLetter(Peek(s, i)) || IsDigit(Peek(s, i)) { NameShift(pre, s, i + 1); }
  }

  lemma {:induction false} DecimalShift(pre: Source, s: Source, lo: nat, hi: nat)
    requires lo <= hi <= |s|
    ensures Decimal(pre + s, |pre| + lo, |pre| + hi) == Decimal(s, lo, hi)
    decreases hi
  {
    if lo < hi { DecimalShift(pre, s, lo, hi - 1); }
  }

  lemma TokenShift(pre: Source, s: Source, i: nat)
    requires i < |s| && s[i] != 0
    ensures var (t, q) := TokenAt(s, i); TokenAt(pre + s, |pre| + i) == (t, |pre| + q)
  {
    hide Decimal, DigitsEnd, NameEnd, BarrelLexer.Word;
    DigitsShift(pre, s, i);
    NameShift(pre, s, i);
    DecimalShift(pre, s, i, DigitsEnd(s, i));
    assert (pre + s)[|pre| + i..|pre| + NameEnd(s, i)] == s[i..NameEnd(s, i)];
  }

  /** Lexing from some position on does not depend on what is before it. */
  lemma {:induction false} LexShift(pre: Source, s: Source, i: nat)
    requires i <= |s|
    ensures Lex(pre + s, |pre| + i) == Lex(s, i)
    decreases |s| - i
  {
    hide SkipBlanks, TokenAt;
    BlanksShift(pre, s, i);
    var p := SkipBlanks(s, i);
    if Peek(s, p) != 0 {
      TokenShift(pre, s, p);
      LexShift(pre, s, TokenAt(s, p).1);
    }
  }

  // ----- Blanks and comments -----

  /** What may stand between tokens: a blank, or a comment with the end of its line. */
  datatype Filler = Blank(c: byte) | Comment(text: seq<byte>)

  /** A text without a newline and without a NUL. */
  predicate OneLine(text: seq<byte>) { '\n' as int !in text && 0 !in text }

  predicate IsFiller(f: Filler) {
    match f
    case Blank(c) => White(c)
    case Comment(text) => OneLine(text)
  }

  function FillerBytes(f: Filler): seq<byte> {
    match f
    case Blank(c) => [c]
    case Comment(text) => Ascii("//") + text + ['\n' as int]
  }

  function Gap(fs: seq<Filler>): seq<byte> {
    if fs == [] then [] else FillerBytes(fs[0]) + Gap(fs[1..])
  }

  lemma {:induction false} LineEndIs(src: Source, pos: nat, end: nat)
    requires pos <= end <= |src| && (Peek(src, end) == 10 || Peek(src, end) == 0)
    requires forall i :: pos <= i < end ==> src[i] != 10 && src[i] != 0
    ensures LineEnd(src, pos) == end
    decreases end - pos
  {
    if pos < end { LineEndIs(src, pos + 1, end); }
  }

  lemma Slashes()
    ensures Ascii("//") == [47, 47]
  {
  }

  /** Where a comment ends. */
  lemma CommentEnds(text: seq<byte>, rest: Source)
    requires OneLine(text) && (rest == [] || rest[0] == 10 || rest[0] == 0)
    ensures var src := Ascii("//") + text + rest;
            |src| == 2 + |text| + |rest| && SkipBlanks(src, 0) == SkipBlanks(src, 2 + |text|)
  {
    Slashes();
    hide Ascii;
    var src := [47, 47] + text + rest;
    CommentText(text, rest);
    LineEndIs(src, 1, 2 + |text|);
    SkipComment(src);
  }

  lemma CommentText(text: seq<byte>, rest: Source)
    requires OneLine(text) && (rest == [] || rest[0] == 10 || rest[0] == 0)
    ensures var src := [47, 47] + text + rest;
            && (Peek(src, 2 + |text|) == 10 || Peek(src, 2 + |text|) == 0) && IsComment(src, 0)
            && forall i :: 1 <= i < 2 + |text| ==> src[i] != 10 && src[i] != 0
  {
    var src := [47, 47] + text + rest;
    assert Peek(src, 2 + |text|) == First(rest);
    forall i | 1 <= i < 2 + |text| ensures src[i] != 10 && src[i] != 0 {
      if i >= 2 { assert src[i] == text[i - 2]; }
    }
  }

  lemma SkipComment(src: Source)
    requires IsComment(src, 0) && 1 <= |src|
    ensures SkipBlanks(src, 0) == SkipBlanks(src, LineEnd(src, 1))
  {
    hide LineEnd;
  }

  lemma SameLex(src: Source, i: nat, j: nat)
    requires i <= |src| && j <= |src| && SkipBlanks(src, i) == SkipBlanks(src, j)
    ensures Lex(src, i) == Lex(src, j)
  {
    hide SkipBlanks, TokenAt;
  }

  /** A comment with its newline changes nothing, whatever follows. */
  lemma CommentSkipped(text: seq<byte>, rest: Source)
    requires OneLine(text)
    ensures Lex(Ascii("//") + text + ['\n' as int] + rest, 0) == Lex(rest, 0)
  {
    hide Lex, SkipBlanks, LineEnd, Ascii;
    var line := ['\n' as int] + rest;
    var src := Ascii("//") + text + line;
    assert src == Ascii("//") + text + ['\n' as int] + rest;
    CommentEnds(text, line);
    Slashes();
    SameLex(src, 0, 2 + |text|);
    LexShift(Ascii("//") + text, line, 0);
    BlankSkipped('\n' as int, rest);
  }

  /** A blank between tokens changes nothing. */
  lemma BlankSkipped(c: byte, rest: Source)
    requires White(c)
    ensures Lex([c] + rest, 0) == Lex(rest, 0)
  {
    hide Lex;
    var src := [c] + rest;
    assert SkipBlanks(src, 0) == SkipBlanks(src, 1);
    hide SkipBlanks;
    SameLex(src, 0, 1);
    LexShift([c], rest, 0);
  }

  /** Blanks and comments in front of a text change nothing. */
  lemma {:induction false} GapSkipped(fs: seq<Filler>, rest: Source)
    requires forall i :: 0 <= i < |fs| ==> IsFiller(fs[i])
    ensures Lex(Gap(fs) + rest, 0) == Lex(rest, 0)
    decreases |fs|
  {
    hide Lex, Ascii, OneLine, White;
    if fs == [] {
      assert Gap(fs) + rest == rest;
    } else {
      var more := Gap(fs[1..]) + rest;
      assert Gap(fs) + rest == FillerBytes(fs[0]) + more;
      assert IsFiller(fs[0]);
      GapSkipped(fs[1..], rest);
      match fs[0]
      case Blank(c) => BlankSkipped(c, more);
      case Comment(text) => CommentSkipped(text, more);
    }
  }

  // ----- Scanning one token -----

  lemma {:induction false} NameEndIs(src: Source, pos: nat, end: nat)
    requires pos <= end <= |src| && !NameByte(Peek(src, end)) && forall i :: pos <= i < end ==> NameByte(src[i])
    ensures NameEnd(src, pos) == end
    decreases end - pos
  {
    if pos < end { NameEndIs(src, pos + 1, end); }
  }

  lemma {:induction false} DigitsEndIs(src: Source, pos: nat, end: nat)
    requires pos <= end <= |src| && !Numeral(Peek(src, end)) && forall i :: pos <= i < end ==> Numeral(src[i])
    ensures DigitsEnd(src, pos) == end
    decreases end - pos
  {
    if pos < end { DigitsEndIs(src, pos + 1, end); }
  }

  /** The value read is the number modulo 2^64. */
  lemma {:induction false} DecimalIs(src: Source, n: nat)
    requires n <= |src|
    ensures Decimal(src, 0, n) == Wrap(Number(src[..n]))
    decreases n
  {
    if n > 0 {
      DecimalIs(src, n - 1);
      assert src[..n][..n - 1] == src[..n - 1];
      WrapStep(Number(src[..n - 1]), src[n - 1]);
    }
  }

  lemma WrapStep(x: int, c: byte)
    ensures Wrap(Wrap(x) * 10 + c - 48) == Wrap(x * 10 + c - 48)
  {
  }

  /** The lexer skips nothing in front of `w` and finds `t`. */
  ghost predicate Scanned(w: seq<byte>, rest: Source, t: Token) {
    var src := w + rest;
    w != [] && SkipBlanks(src, 0) == 0 && src[0] != 0 && TokenAt(src, 0) == (t, |w|)
  }

  lemma NotSkipped(src: Source)
    requires src != [] && !White(src[0]) && !IsComment(src, 0)
    ensures SkipBlanks(src, 0) == 0
  {
  }

  lemma NumberScanned(w: seq<byte>, rest: Source, t: Token)
    requires t.TNum? && Spells(w, t) && Follows(t, First(rest))
    ensures Scanned(w, rest, t)
  {
    hide Decimal, DigitsEnd, SkipBlanks, Number;
    var src := w + rest;
    assert Peek(src, |w|) == First(rest);
    forall i | 0 <= i < |w| ensures Numeral(src[i]) { assert src[i] == w[i]; }
    DigitsEndIs(src, 0, |w|);
    DecimalIs(src, |w|);
    assert src[..|w|] == w;
    NotSkipped(src);
  }

  lemma NameScanned(x: Name, rest: Source)
    requires x != [] && Letter(x[0]) && (forall i :: 0 <= i < |x| ==> NameByte(x[i])) && !NameByte(First(rest))
    ensures Scanned(x, rest, BarrelLexer.Word(x))
  {
    hide BarrelLexer.Word, NameEnd, SkipBlanks;
    var src := x + rest;
    assert Peek(src, |x|) == First(rest);
    forall i | 0 <= i < |x| ensures NameByte(src[i]) { assert src[i] == x[i]; }
    NameEndIs(src, 0, |x|);
    assert src[0..|x|] == x;
    NotSkipped(src);
  }

  /** The letters of the keywords. */
  lemma KeywordBytes()
    ensures Ascii("print") == [112, 114, 105, 110, 116] && Ascii("println") == [112, 114, 105, 110, 116, 108, 110]
    ensures Ascii("let") == [108, 101, 116] && Ascii("if") == [105, 102] && Ascii("else") == [101, 108, 115, 101]
    ensures Ascii("while") == [119, 104, 105, 108, 101] && Ascii("loop") == [108, 111, 111, 112]
    ensures Ascii("break") == [98, 114, 101, 97, 107]
  {
  }

  /** The lexer's table of keywords is the language's. */
  lemma KeywordTable(x: Name)
    ensures Keyword(x) || BarrelLexer.Word(x) == TIdent(x)
  {
    hide Ascii;
    KeywordBytes();
  }

  lemma KeywordSpelled(t: Token)
    requires IsKeyword(t)
    ensures var x := Spelled(t);
            x != [] && Letter(x[0]) && (forall i :: 0 <= i < |x| ==> NameByte(x[i])) && BarrelLexer.Word(x) == t
  {
    hide Ascii;
    KeywordBytes();
  }

  lemma WordScanned(t: Token, rest: Source)
    requires (t.TIdent? || IsKeyword(t)) && Lexable(t) && Follows(t, First(rest))
    ensures Scanned(Spelled(t), rest, t)
  {
    hide BarrelLexer.Word, TokenAt, SkipBlanks, Keyword, Ascii, Scanned;
    if t.TIdent? {
      KeywordTable(t.name);
      NameScanned(t.name, rest);
    } else {
      hide Spelled;
      KeywordSpelled(t);
      NameScanned(Spelled(t), rest);
    }
  }

  /** Punctuation, as bytes. */
  function Mark(t: Token): seq<byte> {
    match t
    case TEq => [61] case TEqEq => [61, 61] case TNe => [33, 61] case TLt => [60] case TLe => [60, 61]
    case TGt => [62] case TGe => [62, 61] case TPlus => [43] case TMinus => [45] case TStar => [42] case TSlash => [47]
    case TLParen => [40] case TRParen => [41] case TLBrace => [123] case TRBrace => [125] case TSemi => [59]
    case _ => []
  }

  lemma MarkSpelled(t: Token)
    requires Mark(t) != []
    ensures Spelled(t) == Mark(t)
  {
  }

  lemma MarkScanned(t: Token, rest: Source)
    requires Mark(t) != [] && Follows(t, First(rest))
    ensures Scanned(Mark(t), rest, t)
  {
    hide SkipBlanks, BarrelLexer.Word, NameEnd, DigitsEnd, Decimal;
    var src := Mark(t) + rest;
    assert |Mark(t)| == 1 ==> Peek(src, 1) == First(rest);
    NotSkipped(src);
  }

  lemma TokenScanned(w: seq<byte>, t: Token, rest: Source)
    requires Spells(w, t) && Follows(t, First(rest))
    ensures Scanned(w, rest, t)
  {
    hide Scanned, Spelled;
    if t.TNum? {
      NumberScanned(w, rest, t);
    } else if t.TIdent? || IsKeyword(t) {
      WordScanned(t, rest);
    } else {
      MarkSpelled(t);
      MarkScanned(t, rest);
    }
  }

  /** A word that spells a token, and is not continued by what follows, is read as that token. */
  lemma TokenRead(w: seq<byte>, t: Token, rest: Source)
    requires Spells(w, t) && Follows(t, First(rest))
    ensures Lex(w + rest, 0) == [t] + Lex(rest, 0)
  {
    hide SkipBlanks, TokenAt, Spells;
    TokenScanned(w, t, rest);
    NeverBad(w, t);
    LexFirst(w + rest, t, |w|);
    hide Lex;
    LexShift(w, rest, 0);
  }

  lemma LexFirst(src: Source, t: Token, n: nat)
    requires src != [] && SkipBlanks(src, 0) == 0 && src[0] != 0 && TokenAt(src, 0) == (t, n) && t != TBad
    ensures Lex(src, 0) == [t] + Lex(src, n)
  {
    hide SkipBlanks, TokenAt;
  }

  lemma NeverBad(w: seq<byte>, t: Token)
    requires Spells(w, t)
    ensures t != TBad
  {
  }

  // ----- Layouts -----

  /** The end of the text for the lexer: nothing more, a NUL, or a comment without a newline. */
  ghost predicate TextEnds(tail: seq<byte>) {
    tail == [] || tail[0] == 0 ||
    exists text, z :: tail == Ascii("//") + text + z && OneLine(text) && (z == [] || z[0] == 0)
  }

  /** A character that starts no token. */
  predicate Rejected(tail: seq<byte>) {
    && tail != [] && tail[0] != 0 && !White(tail[0]) && !NameByte(tail[0])
    && tail[0] !in Ascii("=<>+-*/(){};") && (tail[0] == '!' as int ==> First(tail[1..]) != '=' as int)
  }

  /** The words with the gaps around them, and the tail. */
  function Laid(words: seq<seq<byte>>, gaps: seq<seq<Filler>>, tail: seq<byte>): seq<byte>
    requires |gaps| == |words| + 1
  {
    Gap(gaps[0]) + if words == [] then tail else words[0] + Laid(words[1..], gaps[1..], tail)
  }

  /** The words spell the tokens and are not run together. */
  ghost predicate Layout(ts: seq<Token>, words: seq<seq<byte>>, gaps: seq<seq<Filler>>, tail: seq<byte>)
    decreases |words|
  {
    && |words| == |ts| && |gaps| == |words| + 1 && (forall i :: 0 <= i < |gaps[0]| ==> IsFiller(gaps[0][i]))
    && (words != [] ==>
         && Spells(words[0], ts[0]) && Follows(ts[0], First(Laid(words[1..], gaps[1..], tail)))
         && Layout(ts[1..], words[1..], gaps[1..], tail))
  }

  lemma TailRead(tail: seq<byte>)
    requires TextEnds(tail)
    ensures Lex(tail, 0) == []
  {
    hide Lex;
    if tail == [] || tail[0] == 0 {
      EndRead(tail);
    } else {
      var text, z :| tail == Ascii("//") + text + z && OneLine(text) && (z == [] || z[0] == 0);
      hide Ascii, OneLine, SkipBlanks, LineEnd;
      CommentEnds(text, z);
      Slashes();
      SameLex(tail, 0, 2 + |text|);
      LexShift(Ascii("//") + text, z, 0);
      EndRead(z);
    }
  }

  lemma EndRead(z: seq<byte>)
    requires z == [] || z[0] == 0
    ensures Lex(z, 0) == []
  {
    assert SkipBlanks(z, 0) == 0;
  }

  lemma Marks()
    ensures Ascii("=<>+-*/(){};") == [61, 60, 62, 43, 45, 42, 47, 40, 41, 123, 125, 59]
  {
  }

  lemma RejectedRead(tail: seq<byte>)
    requires Rejected(tail)
    ensures Lex(tail, 0) == [TBad]
  {
    Marks();
    var c := tail[0];
    assert forall i :: 0 <= i < 12 ==> c != Ascii("=<>+-*/(){};")[i];
    hide SkipBlanks, Ascii;
    NotSkipped(tail);
  }

  /** Lexing a layout gives its tokens, and a rejected character at the end one bad token more. */
  lemma {:induction false} LayoutLexes(ts: seq<Token>, words: seq<seq<byte>>, gaps: seq<seq<Filler>>, tail: seq<byte>)
    requires Layout(ts, words, gaps, tail)
    ensures TextEnds(tail) ==> Lex(Laid(words, gaps, tail), 0) == ts
    ensures Rejected(tail) ==> Lex(Laid(words, gaps, tail), 0) == ts + [TBad]
    decreases |words|
  {
    hide Lex, Spells, Follows, TextEnds, Rejected;
    if words == [] {
      GapSkipped(gaps[0], tail);
      if TextEnds(tail) { TailRead(tail); }
      if Rejected(tail) { RejectedRead(tail); }
    } else {
      var more := Laid(words[1..], gaps[1..], tail);
      GapSkipped(gaps[0], words[0] + more);
      TokenRead(words[0], ts[0], more);
      LayoutLexes(ts[1..], words[1..], gaps[1..], tail);
      assert ts == [ts[0]] + ts[1..];
    }
  }
}
