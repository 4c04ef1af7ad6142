/** The lexical structure of Barrel: the token that starts at a source position. */
module BarrelLexer {
  import opened Words
  import opened BarrelSyntax

  type Source = seq<byte>

  /** A NUL byte reads like the end of the source. */
  function Peek(src: Source, pos: int): byte {
    if 0 <= pos < |src| then src[pos] else 0
  }

  predicate IsDigit(c: byte) { 48 <= c <= 57 }

  predicate IsLetter(c: byte) { 97 <= c <= 122 || 65 <= c <= 90 || c == 95 }

  predicate IsSpace(c: byte) { c == 32 || c == 9 || c == 10 || c == 13 }

  predicate IsComment(src: Source, pos: nat) { Peek(src, pos) == 47 && Peek(src, pos + 1) == 47 }

  /** First position at or after `pos` holding a newline or a NUL. */
  function LineEnd(src: Source, pos: nat): (r: nat)
    requires pos <= |src|
    ensures pos <= r <= |src|
    decreases |src| - pos
  {
    if Peek(src, pos) == 10 || Peek(src, pos) == 0 then pos else LineEnd(src, pos + 1)
  }

  /** Past white space and `//` comments. */
  function SkipBlanks(src: Source, pos: nat): (r: nat)
    requires pos <= |src|
    ensures pos <= r <= |src|
    decreases |src| - pos
  {
    if IsComment(src, pos) then SkipBlanks(src, LineEnd(src, pos + 1))
    else if IsSpace(Peek(src, pos)) then SkipBlanks(src, pos + 1)
    else pos
  }

  function DigitsEnd(src: Source, pos: nat): (r: nat)
    requires pos <= |src|
    ensures pos <= r <= |src|
    decreases |src| - pos
  {
    if IsDigit(Peek(src, pos)) then DigitsEnd(src, pos + 1) else pos
  }

  /** The decimal number in [lo, hi), modulo 2^64. */
  function Decimal(src: Source, lo: nat, hi: nat): u64
    requires lo <= hi && hi <= |src|
    decreases hi
  {
    if lo == hi then 0 else Wrap(Decimal(src, lo, hi - 1) * 10 + src[hi - 1] - 48)
  }

  function NameEnd(src: Source, pos: nat): (r: nat)
    requires pos <= |src|
    ensures pos <= r <= |src|
    decreases |src| - pos
  {
    if IsLetter(Peek(src, pos)) || IsDigit(Peek(src, pos)) then NameEnd(src, pos + 1) else pos
  }

  /** Keywords, spelled as bytes. */
  function Word(name: Name): Token {
    if name == [112, 114, 105, 110, 116] then TPrint
    else if name == [112, 114, 105, 110, 116, 108, 110] then TPrintln
    else if name == [108, 101, 116] then TLet
    else if name == [105, 102] then TIf
    else if name == [101, 108, 115, 101] then TElse
    else if name == [119, 104, 105, 108, 101] then TWhile
    else if name == [108, 111, 111, 112] then TLoop
    else if name == [98, 114, 101, 97, 107] then TBreak
    else TIdent(name)
  }

  /** The token at `pos`, where no blanks are left, and the position after it. */
  function TokenAt(src: Source, pos: nat): (r: (Token, nat))
    requires pos < |src| && src[pos] != 0
    ensures pos < r.1 <= |src|
  {
    var c, d := src[pos], Peek(src, pos + 1);
    if IsDigit(c) then (TNum(Decimal(src, pos, DigitsEnd(src, pos))), DigitsEnd(src, pos))
    else if IsLetter(c) then (Word(src[pos..NameEnd(src, pos)]), NameEnd(src, pos))
    else if c == 61 then (if d == 61 then (TEqEq, pos + 2) else (TEq, pos + 1))
    else if c == 33 then (if d == 61 then (TNe, pos + 2) else (TBad, pos + 1))
    else if c == 60 then (if d == 61 then (TLe, pos + 2) else (TLt, pos + 1))
    else if c == 62 then (if d == 61 then (TGe, pos + 2) else (TGt, pos + 1))
    else if c == 43 then (TPlus, pos + 1)
    else if c == 45 then (TMinus, pos + 1)
    else if c == 42 then (TStar, pos + 1)
    else if c == 47 then (TSlash, pos + 1)
    else if c == 40 then (TLParen, pos + 1)
    else if c == 41 then (TRParen, pos + 1)
    else if c == 123 then (TLBrace, pos + 1)
    else if c == 125 then (TRBrace, pos + 1)
    else if c == 59 then (TSemi, pos + 1)
    else (TBad, pos + 1)
  }

  /** All tokens from `pos` on, up to the end or to the first rejected character. */
  function Lex(src: Source, pos: nat): seq<Token>
    requires pos <= |src|
    decreases |src| - pos
  {
    var p := SkipBlanks(src, pos);
    if Peek(src, p) == 0 then []
    else
      var (t, q) := TokenAt(src, p);
      if t == TBad then [TBad] else [t] + Lex(src, q)
  }
}
