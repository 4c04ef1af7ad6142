/** Every text is a layout of some tokens, so the laws of layouts say all there is to say about lexing. */
module BarrelLayout {
  import opened Words
  import opened BarrelSyntax
  import opened BarrelLexer
  import opened BarrelText

  // ----- Taking a text apart -----

  lemma AddFiller(f: Filler, ts: seq<Token>, words: seq<seq<byte>>, gaps: seq<seq<Filler>>, tail: seq<byte>)
    requires IsFiller(f) && Layout(ts, words, gaps, tail)
    ensures var gaps' := gaps[0 := [f] + gaps[0]];
            Layout(ts, words, gaps', tail) && Laid(words, gaps', tail) == FillerBytes(f) + Laid(words, gaps, tail)
  {
    hide IsFiller, FillerBytes, Spells, Follows;
    var g := [f] + gaps[0];
    assert g[1..] == gaps[0] && gaps[0 := g][1..] == gaps[1..];
    assert Gap(g) == FillerBytes(f) + Gap(gaps[0]);
  }

  lemma AddWord(w: seq<byte>, t: Token, ts: seq<Token>, words: seq<seq<byte>>, gaps: seq<seq<Filler>>, tail: seq<byte>)
    requires Spells(w, t) && Layout(ts, words, gaps, tail) && Follows(t, First(Laid(words, gaps, tail)))
    ensures Layout([t] + ts, [w] + words, [[]] + gaps, tail)
    ensures Laid([w] + words, [[]] + gaps, tail) == w + Laid(words, gaps, tail)
  {
    hide Spells, Follows;
    assert ([w] + words)[1..] == words && ([[]] + gaps)[1..] == gaps && ([t] + ts)[1..] == ts;
    assert Gap([]) == [];
  }

  lemma {:induction false} NamePrefix(src: Source, i: nat) returns (k: nat)
    requires i <= |src| && forall j :: 0 <= j < i ==> NameByte(src[j])
    ensures i <= k <= |src| && (forall j :: 0 <= j < k ==> NameByte(src[j])) && !NameByte(First(src[k..]))
    decreases |src| - i
  {
    if i < |src| && NameByte(src[i]) { k := NamePrefix(src, i + 1); } else { k := i; }
  }

  lemma {:induction false} NumberPrefix(src: Source, i: nat) returns (k: nat)
    requires i <= |src| && forall j :: 0 <= j < i ==> Numeral(src[j])
    ensures i <= k <= |src| && (forall j :: 0 <= j < k ==> Numeral(src[j])) && !Numeral(First(src[k..]))
    decreases |src| - i
  {
    if i < |src| && Numeral(src[i]) { k := NumberPrefix(src, i + 1); } else { k := i; }
  }

  /** Up to a newline, a NUL or the end. */
  lemma {:induction false} LinePrefix(src: Source, i: nat) returns (k: nat)
    requires i <= |src|
    ensures i <= k <= |src| && OneLine(src[i..k]) && (k == |src| || src[k] == '\n' as int || src[k] == 0)
    decreases |src| - i
  {
    if i < |src| && src[i] != '\n' as int && src[i] != 0 {
      k := LinePrefix(src, i + 1);
      assert src[i..k] == [src[i]] + src[i + 1..k];
    } else {
      k := i;
    }
  }

  /** A name spells a keyword or itself. */
  lemma NameToken(x: Name) returns (t: Token)
    requires x != [] && Letter(x[0]) && forall i :: 0 <= i < |x| ==> NameByte(x[i])
    ensures Spells(x, t) && (t.TIdent? || IsKeyword(t))
  {
    hide Ascii;
    t := if x == Ascii("print") then TPrint else if x == Ascii("println") then TPrintln
    else if x == Ascii("let") then TLet else if x == Ascii("if") then TIf else if x == Ascii("else") then TElse
    else if x == Ascii("while") then TWhile else if x == Ascii("loop") then TLoop
    else if x == Ascii("break") then TBreak else TIdent(x);
  }

  /** The punctuation that a text begins with. */
  function MarkOf(c: byte, d: byte): Token {
    if c == '=' as int then (if d == '=' as int then TEqEq else TEq)
    else if c == '!' as int then TNe
    else if c == '<' as int then (if d == '=' as int then TLe else TLt)
    else if c == '>' as int then (if d == '=' as int then TGe else TGt)
    else if c == '+' as int then TPlus
    else if c == '-' as int then TMinus
    else if c == '*' as int then TStar
    else if c == '/' as int then TSlash
    else if c == '(' as int then TLParen
    else if c == ')' as int then TRParen
    else if c == '{' as int then TLBrace
    else if c == '}' as int then TRBrace
    else TSemi
  }

  lemma MarkToken(src: Source)
    requires src != [] && (src[0] in Ascii("=<>+-*/(){};") || (src[0] == '!' as int && First(src[1..]) == '=' as int))
    requires src[0] == '/' as int ==> First(src[1..]) != '/' as int
    ensures var t := MarkOf(src[0], First(src[1..]));
            var w := Mark(t);
            && 0 < |w| <= |src| && src[..|w|] == w && Spells(w, t) && Follows(t, First(src[|w|..]))
  {
    hide Ascii, Spells, Follows, MarkOf, Mark, Single;
    var c, d := src[0], First(src[1..]);
    if c in Ascii("=<>+-*/(){};") { MarkStart(c); }
    MarkIs(c, d);
    var w := Mark(MarkOf(c, d));
    MarkSpells(MarkOf(c, d));
    if Doubled(MarkOf(c, d)) {
      DoubledFollows(MarkOf(c, d), First(src[2..]));
      assert src[..2] == [src[0], src[1]] == w;
    } else {
      assert src[..1] == [src[0]] == w;
    }
  }

  predicate Doubled(t: Token) { t == TEqEq || t == TNe || t == TLe || t == TGe }

  lemma MarkIs(c: byte, d: byte)
    requires c == 61 || c == 60 || c == 62 || (c == 33 && d == 61) || Single(c)
    requires c == 47 ==> d != 47
    ensures var t := MarkOf(c, d);
            if Doubled(t) then Mark(t) == [c, d] && d == 61 else Mark(t) == [c] && Follows(t, d)
  {
    hide Numeral, Letter, NameByte;
  }

  predicate Single(c: byte) {
    c == 43 || c == 45 || c == 42 || c == 47 || c == 40 || c == 41 || c == 123 || c == 125 || c == 59
  }

  lemma MarkStart(c: byte)
    requires c in Ascii("=<>+-*/(){};")
    ensures c == 61 || c == 60 || c == 62 || Single(c)
  {
    Marks();
    hide Ascii;
  }

  lemma DoubledFollows(t: Token, e: byte)
    requires Doubled(t)
    ensures Follows(t, e)
  {
  }

  lemma MarkSpells(t: Token)
    requires Mark(t) != []
    ensures Spells(Mark(t), t)
  {
    hide Spelled;
    MarkSpelled(t);
  }

  lemma JustTail(src: Source)
    ensures Layout([], [], [[]], src) && Laid([], [[]], src) == src
  {
    assert Gap([]) == [];
  }

  lemma CommentFirst(src: Source, k: nat)
    requires |src| >= 2 && src[0] == '/' as int == src[1] && 2 <= k <= |src| && OneLine(src[2..k])
    ensures k < |src| && src[k] == '\n' as int ==> FillerBytes(Comment(src[2..k])) + src[k + 1..] == src
    ensures k == |src| || src[k] == 0 ==> TextEnds(src)
  {
    Slashes();
    hide Ascii, OneLine;
    var text, z := src[2..k], src[k..];
    assert src == Ascii("//") + text + z;
  }

  lemma WordFirst(src: Source) returns (w: seq<byte>, t: Token)
    requires src != [] && src[0] != 0 && !White(src[0]) && !Rejected(src)
    requires src[0] == '/' as int ==> First(src[1..]) != '/' as int
    ensures 0 < |w| <= |src| && w == src[..|w|] && Spells(w, t) && Follows(t, First(src[|w|..]))
  {
    hide Ascii;
    if Numeral(src[0]) {
      var k := NumberPrefix(src, 0);
      w := src[..k];
      t := TNum(Wrap(Number(w)));
    } else if Letter(src[0]) {
      hide Spells;
      var k := NamePrefix(src, 0);
      w := src[..k];
      t := NameToken(w);
    } else {
      hide Spells, Follows, Mark;
      MarkToken(src);
      t := MarkOf(src[0], First(src[1..]));
      w := Mark(t);
    }
  }

  /** Every text is a layout. */
  lemma {:induction false} EveryTextIsLayout(src: Source)
    returns (ts: seq<Token>, words: seq<seq<byte>>, gaps: seq<seq<Filler>>, tail: seq<byte>)
    ensures |gaps| == |words| + 1
    ensures Layout(ts, words, gaps, tail) && Laid(words, gaps, tail) == src && (TextEnds(tail) || Rejected(tail))
    decreases |src|
  {
    hide Layout, Laid, Spells, Follows, Rejected, Ascii, Mark, White;
    if src == [] || src[0] == 0 || Rejected(src) {
      ts, words, gaps, tail := [], [], [[]], src;
      JustTail(src);
    } else if White(src[0]) {
      ts, words, gaps, tail := EveryTextIsLayout(src[1..]);
      AddFiller(Blank(src[0]), ts, words, gaps, tail);
      gaps := gaps[0 := [Blank(src[0])] + gaps[0]];
    } else if src[0] == '/' as int && First(src[1..]) == '/' as int {
      var k := LinePrefix(src, 2);
      CommentFirst(src, k);
      if k < |src| && src[k] == '\n' as int {
        ts, words, gaps, tail := EveryTextIsLayout(src[k + 1..]);
        var f := Comment(src[2..k]);
        AddFiller(f, ts, words, gaps, tail);
        gaps := gaps[0 := [f] + gaps[0]];
      } else {
        ts, words, gaps, tail := [], [], [[]], src;
        JustTail(src);
      }
    } else {
      var w, t := WordFirst(src);
      ts, words, gaps, tail := EveryTextIsLayout(src[|w|..]);
      AddWord(w, t, ts, words, gaps, tail);
      ts, words, gaps := [t] + ts, [w] + words, [[]] + gaps;
    }
  }

  /** The text writes these tokens down, with these words and gaps, and then ends. */
  ghost predicate Writes(src: Source, ts: seq<Token>, words: seq<seq<byte>>, gaps: seq<seq<Filler>>, tail: seq<byte>) {
    Layout(ts, words, gaps, tail) && TextEnds(tail) && Laid(words, gaps, tail) == src
  }

  /** A text lexes to tokens without a rejected character exactly if it writes them down. */
  lemma LexedIsLayout(src: Source, ts: seq<Token>)
    requires TBad !in ts
    ensures Lex(src, 0) == ts <==> exists words, gaps, tail :: Writes(src, ts, words, gaps, tail)
  {
    hide Lex, Layout, Laid, TextEnds, Rejected;
    var ts', words, gaps, tail := EveryTextIsLayout(src);
    LayoutLexes(ts', words, gaps, tail);
    assert (ts' + [TBad])[|ts'|] == TBad;
    if Lex(src, 0) == ts {
      assert Writes(src, ts, words, gaps, tail);
    } else if words', gaps', tail' :| Writes(src, ts, words', gaps', tail') {
      LayoutLexes(ts, words', gaps', tail');
    }
  }

  // ----- The plain layout -----

  /** The tokens' spellings, each followed by a blank. */
  function Text(ts: seq<Token>): seq<byte> {
    if ts == [] then [] else Spelled(ts[0]) + [' ' as int] + Text(ts[1..])
  }

  lemma {:induction false} NumberOfDigits(n: nat)
    ensures Number(BarrelText.Digits(n)) == n
  {
    if n >= 10 {
      NumberOfDigits(n / 10);
      assert BarrelText.Digits(n)[..|BarrelText.Digits(n)| - 1] == BarrelText.Digits(n / 10);
    } else {
      assert BarrelText.Digits(n)[..0] == [];
    }
  }

  /** Lexing undoes spelling, for every sequence of tokens. */
  lemma {:induction false} TextRoundTrip(ts: seq<Token>)
    requires AllLexable(ts)
    ensures Lex(Text(ts), 0) == ts
  {
    hide Lex, Spelled, Lexable;
    if ts == [] {
      EndRead([]);
    } else {
      var w, t, more := Spelled(ts[0]), ts[0], Text(ts[1..]);
      assert Lexable(t);
      SpelledSpells(t);
      TextRoundTrip(ts[1..]);
      assert Text(ts) == w + ([' ' as int] + more);
      BlankFollows(t);
      TokenRead(w, t, [' ' as int] + more);
      BlankSkipped(' ' as int, more);
      assert ts == [t] + ts[1..];
    }
  }

  lemma BlankFollows(t: Token)
    ensures Follows(t, ' ' as int)
  {
  }

  lemma SpelledSpells(t: Token)
    requires Lexable(t)
    ensures Spells(Spelled(t), t)
  {
    hide Ascii;
    if t.TNum? { NumberOfDigits(t.n); }
  }
}
