// Writing an expression down with no more parentheses than precedence asks for,
// and reading it back through the lexer and the parser.
module ExprPrinter {
  import opened Word32
  import opened Numerals
  import opened ExprTokens
  import opened ExprGrammar
  import opened ExprCorrect
  import opened ExprParser
  import Itoa

  datatype Style = Dec | Hex(ten: char)

  // A syntax tree, without parentheses.
  datatype Ast =
    | Num(n: nat, style: Style) | Var(name: string)
    | Neg(arg: Ast) | Pos(arg: Ast) | Bin(op: Tok, left: Ast, right: Ast)

  predicate IsName(s: string) {
    |s| > 0 && (IsAlpha(s[0]) || s[0] == '_') && forall i | 0 <= i < |s| :: IsWord(s[i])
  }

  // Literals the lexer takes at their face value: any 32-bit number in decimal,
  // any but zero in hexadecimal.
  predicate IsLiteral(n: nat, style: Style) {
    n < TWO32 && (style.Hex? ==> n > 0 && (style.ten == 'a' || style.ten == 'A'))
  }

  predicate Writable(a: Ast) {
    match a
    case Num(n, style) => IsLiteral(n, style)
    case Var(s) => IsName(s)
    case Neg(x) => Writable(x)
    case Pos(x) => Writable(x)
    case Bin(op, l, r) => IsOperator(op) && Writable(l) && Writable(r)
  }

  function Meaning(a: Ast, env: seq<Constant>): Answer {
    match a
    case Num(n, _) => Good(Wrap(n))
    case Var(s) => if Lookup(env, s).Some? then Good(Lookup(env, s).value) else Wrong(UnknownConstant)
    case Neg(x) => var m := Meaning(x, env); if m.Good? then Good(Wrap(-m.value)) else m
    case Pos(x) => Meaning(x, env)
    case Bin(op, l, r) =>
      var m := Meaning(l, env);
      if m.Wrong? then m
      else
        var k := Meaning(r, env);
        if k.Wrong? then k
        else if IsOperator(op) then Apply(op, m.value, k.value) else Wrong(Syntax)
  }

  // ----- parentheses --------------------------------------------------------------

  function Wrapped(e: Expr, min: nat): Expr {
    if Binding(e) < min then Paren(e) else e
  }

  // The tree with parentheses where something binding at least as tightly as
  // `min` is called for.
  function Show(a: Ast, min: nat): Expr
    requires Writable(a)
  {
    match a
    case Num(n, _) => Literal(Wrap(n))
    case Var(s) => Name(s)
    case Neg(x) => Wrapped(Negate(Show(x, 3)), min)
    case Pos(x) => Wrapped(Affirm(Show(x, 3)), min)
    case Bin(op, l, r) => Wrapped(Binary(op, Show(l, RankOf(op)), Show(r, RankOf(op) + 1)), min)
  }

  lemma {:induction false} ShowMeans(a: Ast, min: nat, env: seq<Constant>)
    requires Writable(a) && min <= 4
    ensures Grammatical(Show(a, min)) && Binding(Show(a, min)) >= min
    ensures Eval(Show(a, min), env) == Meaning(a, env)
  {
    match a
    case Num(_, _) =>
    case Var(_) =>
    case Neg(x) => ShowMeans(x, 3, env);
    case Pos(x) => ShowMeans(x, 3, env);
    case Bin(op, l, r) =>
      ShowMeans(l, RankOf(op), env);
      ShowMeans(r, RankOf(op) + 1, env);
  }

  // ----- text ---------------------------------------------------------------------

  // What is written for one token.
  datatype Piece = PNum(n: nat, style: Style) | PName(name: string) | PSymbol(tok: Tok)

  predicate IsSymbol(t: Tok) { IsOperator(t) || t.LParen? || t.RParen? }

  predicate Legible(p: Piece) {
    match p
    case PNum(n, style) => IsLiteral(n, style)
    case PName(s) => IsName(s)
    case PSymbol(t) => IsSymbol(t)
  }

  function TokOf(p: Piece): Tok {
    match p
    case PNum(n, _) => Number(Wrap(n))
    case PName(s) => Ident(s)
    case PSymbol(t) => t
  }

  function SymbolText(t: Tok): (s: string)
    requires IsSymbol(t)
    ensures |s| > 0
  {
    match t
    case Plus => "+"
    case Minus => "-"
    case Star => "*"
    case Slash => "/"
    case Percent => "%"
    case LParen => "("
    case RParen => ")"
    case Shl => "<<"
    case Shr => ">>"
  }

  function Text(p: Piece): (s: string)
    requires Legible(p)
    ensures |s| > 0
  {
    match p
    case PNum(n, Dec) => Digits(n, 10, 'a')
    case PNum(n, Hex(ten)) => "$" + Digits(n, 16, ten)
    case PName(s) => s
    case PSymbol(t) => SymbolText(t)
  }

  function Enclosed(ps: seq<Piece>, paren: bool): seq<Piece> {
    if paren then [PSymbol(LParen)] + ps + [PSymbol(RParen)] else ps
  }

  function Pieces(a: Ast, min: nat): seq<Piece>
    requires Writable(a)
  {
    match a
    case Num(n, style) => [PNum(n, style)]
    case Var(s) => [PName(s)]
    case Neg(x) => Enclosed([PSymbol(Minus)] + Pieces(x, 3), 3 < min)
    case Pos(x) => Enclosed([PSymbol(Plus)] + Pieces(x, 3), 3 < min)
    case Bin(op, l, r) =>
      var k := RankOf(op);
      Enclosed(Pieces(l, k) + [PSymbol(op)] + Pieces(r, k + 1), k < min)
  }

  function ToksOf(ps: seq<Piece>): (ts: seq<Tok>) {
    if ps == [] then [] else [TokOf(ps[0])] + ToksOf(ps[1..])
  }

  lemma {:induction false} ToksJoin(a: seq<Piece>, b: seq<Piece>)
    ensures ToksOf(a + b) == ToksOf(a) + ToksOf(b)
  {
    if a == [] {
      assert a + b == b;
    } else {
      assert (a + b)[1..] == a[1..] + b;
      ToksJoin(a[1..], b);
    }
  }

  lemma ToksEnclosed(ps: seq<Piece>, paren: bool)
    ensures ToksOf(Enclosed(ps, paren)) == if paren then [LParen] + ToksOf(ps) + [RParen] else ToksOf(ps)
  {
    ToksJoin([PSymbol(LParen)], ps);
    ToksJoin([PSymbol(LParen)] + ps, [PSymbol(RParen)]);
    assert ToksOf([PSymbol(LParen)]) == [LParen] && ToksOf([PSymbol(RParen)]) == [RParen];
  }

  lemma SignYield(sign: Tok, x: Ast, paren: bool)
    requires Writable(x)
    ensures var ts := [sign] + Yield(Show(x, 3));
            ToksOf(Enclosed([PSymbol(sign)] + Pieces(x, 3), paren)) == if paren then [LParen] + ts + [RParen] else ts
    decreases x, 2
  {
    PiecesYield(x, 3);
    ToksJoin([PSymbol(sign)], Pieces(x, 3));
    assert ToksOf([PSymbol(sign)]) == [sign];
    ToksEnclosed([PSymbol(sign)] + Pieces(x, 3), paren);
  }

  lemma BinYield(op: Tok, l: Ast, r: Ast, k: Rank, paren: bool, ts: seq<Tok>)
    requires Writable(l) && Writable(r) && ts == Yield(Show(l, k)) + [op] + Yield(Show(r, k + 1))
    ensures ToksOf(Enclosed(Pieces(l, k) + [PSymbol(op)] + Pieces(r, k + 1), paren))
         == if paren then [LParen] + ts + [RParen] else ts
    decreases Bin(op, l, r), 0
  {
    PiecesYield(l, k);
    PiecesYield(r, k + 1);
    ToksJoin(Pieces(l, k), [PSymbol(op)]);
    ToksJoin(Pieces(l, k) + [PSymbol(op)], Pieces(r, k + 1));
    assert ToksOf([PSymbol(op)]) == [op];
    ToksEnclosed(Pieces(l, k) + [PSymbol(op)] + Pieces(r, k + 1), paren);
  }

  // The pieces are the sentence of the parenthesized tree.
  lemma {:induction false} PiecesYield(a: Ast, min: nat)
    requires Writable(a)
    ensures ToksOf(Pieces(a, min)) == Yield(Show(a, min))
    decreases a, 1
  {
    match a
    case Num(_, _) =>
    case Var(_) =>
    case Neg(x) => SignYield(Minus, x, 3 < min);
    case Pos(x) => SignYield(Plus, x, 3 < min);
    case Bin(op, l, r) =>
      var k := RankOf(op);
      BinYield(op, l, r, k, k < min, Yield(Show(l, k)) + [op] + Yield(Show(r, k + 1)));
  }

  // ----- white space between the pieces -------------------------------------------

  predicate Wordy(p: Piece) { !p.PSymbol? }

  // Numbers and names never stand side by side, so no white space is needed.
  predicate Spaced(ps: seq<Piece>) {
    |ps| < 2 || (!(Wordy(ps[0]) && Wordy(ps[1])) && Spaced(ps[1..]))
  }

  lemma {:induction false} SpacedJoin(a: seq<Piece>, t: Tok, b: seq<Piece>)
    requires Spaced(a) && Spaced(b)
    ensures Spaced(a + [PSymbol(t)] + b)
  {
    var m := [PSymbol(t)];
    if a == [] {
      assert a + m + b == m + b;
      assert (m + b)[1..] == b;
    } else {
      SpacedJoin(a[1..], t, b);
      assert (a + m + b)[1..] == a[1..] + m + b;
    }
  }

  lemma SpacedEnclosed(ps: seq<Piece>, paren: bool)
    requires Spaced(ps)
    ensures Spaced(Enclosed(ps, paren))
  {
    SpacedJoin([], LParen, ps);
    SpacedJoin([PSymbol(LParen)] + ps, RParen, []);
    assert [] + [PSymbol(LParen)] + ps == [PSymbol(LParen)] + ps;
    var all := [PSymbol(LParen)] + ps + [PSymbol(RParen)];
    assert all + [] == all;
  }

  lemma {:induction false} PiecesSpaced(a: Ast, min: nat)
    requires Writable(a)
    ensures Spaced(Pieces(a, min))
  {
    match a
    case Num(_, _) =>
    case Var(_) =>
    case Neg(x) =>
      PiecesSpaced(x, 3);
      SpacedJoin([], Minus, Pieces(x, 3));
      assert [] + [PSymbol(Minus)] + Pieces(x, 3) == [PSymbol(Minus)] + Pieces(x, 3);
      SpacedEnclosed([PSymbol(Minus)] + Pieces(x, 3), 3 < min);
    case Pos(x) =>
      PiecesSpaced(x, 3);
      SpacedJoin([], Plus, Pieces(x, 3));
      assert [] + [PSymbol(Plus)] + Pieces(x, 3) == [PSymbol(Plus)] + Pieces(x, 3);
      SpacedEnclosed([PSymbol(Plus)] + Pieces(x, 3), 3 < min);
    case Bin(op, l, r) =>
      var k := RankOf(op);
      PiecesSpaced(l, k);
      PiecesSpaced(r, k + 1);
      SpacedJoin(Pieces(l, k), op, Pieces(r, k + 1));
      SpacedEnclosed(Pieces(l, k) + [PSymbol(op)] + Pieces(r, k + 1), k < min);
  }

  predicate AllLegible(ps: seq<Piece>) { forall i | 0 <= i < |ps| :: Legible(ps[i]) }

  lemma {:induction false} PiecesLegible(a: Ast, min: nat)
    requires Writable(a)
    ensures AllLegible(Pieces(a, min))
  {
    match a
    case Num(_, _) =>
    case Var(_) =>
    case Neg(x) => PiecesLegible(x, 3);
    case Pos(x) => PiecesLegible(x, 3);
    case Bin(op, l, r) =>
      PiecesLegible(l, RankOf(op));
      PiecesLegible(r, RankOf(op) + 1);
  }

  // White space: blank, tab, form feed, carriage return and newline.
  predicate IsBlank(s: string) { forall i | 0 <= i < |s| :: s[i] in {' ', '\t', '\U{0C}', '\r', '\n'} }

  // The text of the pieces with the gaps before, between and behind them.
  function Render(ps: seq<Piece>, gaps: seq<string>): string
    requires |gaps| == |ps| + 1 && AllLegible(ps)
  {
    if ps == [] then gaps[0] else gaps[0] + Text(ps[0]) + Render(ps[1..], gaps[1..])
  }

  // ----- the lexer reads it back ----------------------------------------------------

  lemma {:induction false} SpanIs(s: string, i: nat, j: nat, p: char -> bool)
    requires i <= j <= |s| && (forall k | i <= k < j :: p(s[k])) && (j < |s| ==> !p(s[j]))
    ensures Span(s, i, p) == j
    decreases j - i
  {
    if i < j { SpanIs(s, i + 1, j, p); }
  }

  // `text` stands at position i.
  predicate Stands(s: string, i: nat, text: string) {
    i + |text| <= |s| && s[i..i + |text|] == text
  }

  // The character behind does not prolong a number or a name.
  predicate Broken(s: string, j: nat) { j < |s| ==> !IsWord(s[j]) }

  lemma Monotone(q: nat, a: nat, b: nat)
    requires a <= b
    ensures q * a <= q * b
  {
  }

  lemma HalfBound(n: nat, base: nat, k: nat)
    requires 2 <= base <= n < Pow2(k) && k > 0
    ensures k > 1 && n / base < Pow2(k - 1)
  {
    var q := n / base;
    DivMod(n, base);
    Monotone(q, 2, base);
    assert Pow2(k) == 2 * Pow2(k - 1);
  }

  lemma {:induction false} DigitsLength(n: nat, base: nat, ten: char, k: nat)
    requires 2 <= base <= 36 && (ten == 'a' || ten == 'A') && n < Pow2(k) && k > 0
    ensures |Digits(n, base, ten)| <= k
    decreases k
  {
    if n >= base {
      HalfBound(n, base, k);
      DigitsLength(n / base, base, ten, k - 1);
    }
  }

  lemma Pow2Of32()
    ensures Pow2(32) == TWO32
  {
    assert Pow2(8) == 256;
    assert Pow2(16) == 65536;
    assert Pow2(24) == 16777216;
  }

  lemma DigitClasses(c: char)
    ensures IsDigit(c) <==> DigitValue(c) < 10
    ensures IsXDigit(c) <==> DigitValue(c) < 16
    ensures DigitValue(c) < 36 <==> IsAlpha(c) || IsDigit(c)
  {
  }

  lemma SliceAt(s: string, i: nat, text: string, k: nat)
    requires Stands(s, i, text) && k < |text|
    ensures s[i + k] == text[k]
  {
    assert s[i..i + |text|][k] == s[i + k];
  }

  lemma ShortCopy(s: string, i: nat, text: string)
    requires Stands(s, i, text) && |text| < BUFFER
    ensures Copied(s, i, i + |text|) == text
  {
  }

  // Behind the text of a number made of digits of the base.
  lemma DigitsSpan(s: string, i: nat, text: string, from: nat, base: nat, p: char -> bool)
    requires Stands(s, i, text) && Broken(s, i + |text|) && from <= |text|
    requires forall k | from <= k < |text| :: DigitValue(text[k]) < base
    requires (base == 10 && p == IsDigit) || (base == 16 && p == IsXDigit)
    ensures Span(s, i + from, p) == i + |text|
  {
    forall k | i + from <= k < i + |text| ensures p(s[k]) {
      SliceAt(s, i, text, k - i);
      DigitClasses(s[k]);
    }
    if i + |text| < |s| { DigitClasses(s[i + |text|]); }
    SpanIs(s, i + from, i + |text|, p);
  }

  // A number that begins with a digit, and one that begins with `$`.
  lemma AtDigit(s: string, i: nat, j: nat, v: int)
    requires i < |s| && IsDigit(s[i]) && !(s[i] == '0' && i + 1 < |s| && s[i + 1] == 'x')
    requires j == Span(s, i, IsDigit) && v == Parsed(Copied(s, i, j), 10).0
    ensures LexAt(s, i) == Lexeme(Token(Number(v), i), j)
  {
  }

  lemma LoneZero()
    ensures Parsed("0", 10).0 == 0
  {
    assert PrefixOf("0", 10) == Prefix(1, 8, 1);
    assert "0"[1..1] == "";
  }

  // A capital X makes no hexadecimal number: the zero in front of it is a token
  // of its own, and a name follows.
  lemma CapitalX(s: string, i: nat)
    requires i + 1 < |s| && s[i] == '0' && s[i + 1] == 'X'
    ensures LexAt(s, i) == Lexeme(Token(Number(0), i), i + 1)
    ensures LexAt(s, i + 1).token.tok.Ident?
  {
    SpanIs(s, i, i + 1, IsDigit);
    assert Copied(s, i, i + 1) == "0";
    LoneZero();
    AtDigit(s, i, i + 1, 0);
  }

  // A decimal text does not look like 0x.
  lemma DecimalStart(s: string, i: nat, text: string) returns (j: nat)
    requires text != "" && Stands(s, i, text) && Broken(s, i + |text|)
    requires forall k | 0 <= k < |text| :: DigitValue(text[k]) < 10
    ensures i < |s| && IsDigit(s[i]) && !(s[i] == '0' && i + 1 < |s| && s[i + 1] == 'x')
    ensures j == Span(s, i, IsDigit) && j == i + |text|
  {
    SliceAt(s, i, text, 0);
    DigitClasses(s[i]);
    DigitsSpan(s, i, text, 0, 10, IsDigit);
    j := i + |text|;
  }

  lemma DecimalCopy(s: string, i: nat, text: string, j: nat, v: int)
    requires |text| < BUFFER && Stands(s, i, text) && j == i + |text| && Parsed(text, 10).0 == v
    ensures v == Parsed(Copied(s, i, j), 10).0
  {
    ShortCopy(s, i, text);
  }

  // Decimal digits, and what strtol makes of them.
  lemma LexDigits(s: string, i: nat, text: string, v: int)
    requires 0 < |text| < BUFFER && Stands(s, i, text) && Broken(s, i + |text|)
    requires forall k | 0 <= k < |text| :: DigitValue(text[k]) < 10
    requires Parsed(text, 10).0 == v
    ensures i < |s| && LexAt(s, i) == Lexeme(Token(Number(v), i), i + |text|)
  {
    var j := DecimalStart(s, i, text);
    DecimalCopy(s, i, text, j, v);
    AtDigit(s, i, j, v);
  }

  lemma DecimalShort(n: nat)
    requires n < TWO32
    ensures |Digits(n, 10, 'a')| <= 32
  {
    Pow2Of32();
    DigitsLength(n, 10, 'a', 32);
  }

  lemma ReadDecimal(text: string, n: nat)
    requires text == Digits(n, 10, 'a')
    ensures Parsed(text, 10).0 == Wrap(n)
  {
    assert Itoa.Fill(0, ' ') + "" + text == text;
    Itoa.ReadNumber(text, 0, false, n, 10, 'a');
    assert 1 * n == n;
  }

  // The text of a number written in decimal.
  lemma DecimalText(n: nat, text: string)
    requires n < TWO32 && text == Digits(n, 10, 'a')
    ensures 0 < |text| < BUFFER && Parsed(text, 10).0 == Wrap(n)
    ensures forall k | 0 <= k < |text| :: DigitValue(text[k]) < 10
  {
    DecimalShort(n);
    DigitsShape(n, 10, 'a');
    ReadDecimal(text, n);
  }

  lemma LexDecimal(s: string, i: nat, n: nat, text: string)
    requires n < TWO32 && text == Digits(n, 10, 'a')
    requires Stands(s, i, text) && Broken(s, i + |text|)
    ensures i < |s| && LexAt(s, i) == Lexeme(Token(Number(Wrap(n)), i), i + |text|)
  {
    DecimalText(n, text);
    LexDigits(s, i, text, Wrap(n));
  }

  lemma AtDollar(s: string, i: nat, j: nat, v: int)
    requires i + 1 < |s| && s[i] == '$' && IsXDigit(s[i + 1]) && s[i + 1] != '0'
    requires j == Span(s, i + 1, IsXDigit) && v == Parsed(Copied(s, i, j), 16).0
    ensures LexAt(s, i) == Lexeme(Token(Number(v), i), j)
  {
    assert j != i + 1;
  }

  lemma ReadHex(text: string, n: nat, ten: char)
    requires (ten == 'a' || ten == 'A') && text == "$" + Digits(n, 16, ten)
    ensures Parsed(text, 16).0 == Wrap(n)
  {
    DigitsShape(n, 16, ten);
    DigitsValue(n, 16, ten);
    assert text[1..] == Digits(n, 16, ten);
    Itoa.ParsedIs(text, 16, Prefix(1, 16, 1), Digits(n, 16, ten));
    assert 1 * n == n;
  }

  lemma HexShort(n: nat, ten: char)
    requires IsLiteral(n, Hex(ten))
    ensures |Digits(n, 16, ten)| <= 32
  {
    Pow2Of32();
    DigitsLength(n, 16, ten, 32);
  }

  // A `$` and the digits behind it, none of them a zero to be dropped.
  lemma HexSpan(s: string, i: nat, n: nat, ten: char, text: string) returns (j: nat)
    requires IsLiteral(n, Hex(ten)) && text == "$" + Digits(n, 16, ten)
    requires Stands(s, i, text) && Broken(s, i + |text|)
    ensures i + 1 < |s| && s[i] == '$' && IsXDigit(s[i + 1]) && s[i + 1] != '0'
    ensures j == Span(s, i + 1, IsXDigit) && j == i + |text|
  {
    var digits := Digits(n, 16, ten);
    DigitsShape(n, 16, ten);
    SliceAt(s, i, text, 0);
    SliceAt(s, i, text, 1);
    DigitClasses(s[i + 1]);
    assert forall k | 1 <= k < |text| :: text[k] == digits[k - 1];
    DigitsSpan(s, i, text, 1, 16, IsXDigit);
    j := i + |text|;
  }

  lemma HexCopy(s: string, i: nat, n: nat, ten: char, text: string, j: nat) returns (v: int)
    requires IsLiteral(n, Hex(ten)) && text == "$" + Digits(n, 16, ten)
    requires Stands(s, i, text) && j == i + |text|
    ensures v == Parsed(Copied(s, i, j), 16).0 && v == Wrap(n)
  {
    HexShort(n, ten);
    ShortCopy(s, i, text);
    ReadHex(text, n, ten);
    v := Wrap(n);
  }

  lemma LexHex(s: string, i: nat, n: nat, ten: char, text: string)
    requires IsLiteral(n, Hex(ten)) && text == "$" + Digits(n, 16, ten)
    requires Stands(s, i, text) && Broken(s, i + |text|)
    ensures i < |s| && LexAt(s, i) == Lexeme(Token(Number(Wrap(n)), i), i + |text|)
  {
    var j := HexSpan(s, i, n, ten, text);
    var v := HexCopy(s, i, n, ten, text, j);
    AtDollar(s, i, j, v);
  }

  lemma LexName(s: string, i: nat, name: string)
    requires IsName(name) && Stands(s, i, name) && Broken(s, i + |name|)
    ensures i < |s| && LexAt(s, i) == Lexeme(Token(Ident(name), i), i + |name|)
  {
    SliceAt(s, i, name, 0);
    forall k | i <= k < i + |name| ensures IsWord(s[k]) {
      SliceAt(s, i, name, k - i);
    }
    SpanIs(s, i, i + |name|, IsWord);
  }

  lemma LexSymbol(s: string, i: nat, t: Tok)
    requires IsSymbol(t) && Stands(s, i, SymbolText(t))
    ensures i < |s| && LexAt(s, i) == Lexeme(Token(t, i), i + |SymbolText(t)|)
  {
    SliceAt(s, i, SymbolText(t), 0);
    if t.Shl? || t.Shr? { SliceAt(s, i, SymbolText(t), 1); }
  }

  lemma LexPiece(s: string, i: nat, p: Piece)
    requires Legible(p) && Stands(s, i, Text(p)) && (Wordy(p) ==> Broken(s, i + |Text(p)|))
    ensures i < |s| && LexAt(s, i) == Lexeme(Token(TokOf(p), i), i + |Text(p)|)
  {
    match p
    case PNum(n, Dec) => LexDecimal(s, i, n, Text(p));
    case PNum(n, Hex(ten)) => LexHex(s, i, n, ten, Text(p));
    case PName(name) => LexName(s, i, name);
    case PSymbol(t) => LexSymbol(s, i, t);
  }

  // The first character of a piece is no white space, and no part of a word
  // unless the piece is a number or a name.
  lemma TextStart(p: Piece)
    requires Legible(p)
    ensures !IsSpace(Text(p)[0])
    ensures !Wordy(p) ==> !IsWord(Text(p)[0])
  {
    match p
    case PNum(n, Dec) => DigitsShape(n, 10, 'a'); DigitClasses(Text(p)[0]);
    case PNum(n, Hex(ten)) =>
    case PName(name) =>
    case PSymbol(t) =>
  }

  // The stream's tokens, without positions.
  function Kinds(ts: seq<Token>): seq<Tok> {
    if ts == [] then [] else [ts[0].tok] + Kinds(ts[1..])
  }

  // Behind a piece comes white space, a symbol, or nothing.
  lemma BrokenAfter(s: string, j: nat, ps: seq<Piece>, gaps: seq<string>)
    requires j <= |s| && |gaps| == |ps| + 1 && AllLegible(ps)
    requires IsBlank(gaps[0]) && s[j..] == Render(ps, gaps)
    requires ps != [] ==> !Wordy(ps[0])
    ensures Broken(s, j)
  {
    if j < |s| {
      assert s[j] == s[j..][0];
      if gaps[0] != "" {
        assert s[j] == gaps[0][0];
      } else {
        assert s[j] == Text(ps[0])[0];
        TextStart(ps[0]);
      }
    }
  }

  // Where the first gap and the first piece lie in the text.
  lemma RenderCut(s: string, i: nat, gap: string, text: string, rest: string)
    requires i <= |s| && s[i..] == gap + text + rest
    ensures var j := i + |gap|;
            && i <= j && j + |text| <= |s| && Stands(s, j, text) && s[j + |text|..] == rest
            && (forall k | i <= k < j :: s[k] == gap[k - i])
            && (text != "" ==> s[j] == text[0])
  {
    var j := i + |gap|;
    assert forall k | 0 <= k < |s| - i :: s[i + k] == (gap + text + rest)[k];
    assert s[j..j + |text|] == text;
    assert s[j + |text|..] == rest;
  }

  lemma GapSpan(s: string, i: nat, gap: string)
    requires i + |gap| <= |s| && IsBlank(gap)
    requires forall k | i <= k < i + |gap| :: s[k] == gap[k - i]
    requires i + |gap| < |s| ==> !IsSpace(s[i + |gap|])
    ensures Span(s, i, IsSpace) == i + |gap|
  {
    SpanIs(s, i, i + |gap|, IsSpace);
  }

  lemma LexBehindGap(s: string, i: nat, gap: string, p: Piece)
    requires i + |gap| <= |s| && IsBlank(gap) && Legible(p)
    requires forall k | i <= k < i + |gap| :: s[k] == gap[k - i]
    requires Stands(s, i + |gap|, Text(p)) && (Wordy(p) ==> Broken(s, i + |gap| + |Text(p)|))
    ensures Lex(s, i) == Lexeme(Token(TokOf(p), i + |gap|), i + |gap| + |Text(p)|)
  {
    var j := i + |gap|;
    SliceAt(s, j, Text(p), 0);
    TextStart(p);
    GapSpan(s, i, gap);
    LexPiece(s, j, p);
  }

  // The first token of a rendered text: its gap, its piece, and the rest.
  lemma FirstPiece(s: string, i: nat, gap: string, p: Piece, ps: seq<Piece>, gaps: seq<string>) returns (l: Lexeme)
    requires i <= |s| && |gaps| == |ps| + 1 && Legible(p) && AllLegible(ps)
    requires IsBlank(gap) && IsBlank(gaps[0])
    requires s[i..] == gap + Text(p) + Render(ps, gaps)
    requires ps != [] ==> !(Wordy(p) && Wordy(ps[0]))
    ensures l == Lex(s, i) && l.token.tok == TokOf(p) && s[l.next..] == Render(ps, gaps)
  {
    RenderCut(s, i, gap, Text(p), Render(ps, gaps));
    if Wordy(p) {
      BrokenAfter(s, i + |gap| + |Text(p)|, ps, gaps);
    }
    LexBehindGap(s, i, gap, p);
    l := Lex(s, i);
  }

  lemma BlankRest(s: string, i: nat, gap: string)
    requires i <= |s| && s[i..] == gap && IsBlank(gap)
    ensures Kinds(Tokens(s, i)) == [End]
  {
    RenderCut(s, i, gap, "", "");
    GapSpan(s, i, gap);
    assert Tokens(s, i) == [Token(End, |s|)];
  }

  lemma TokensStep(s: string, i: nat, l: Lexeme)
    requires i <= |s| && l == Lex(s, i) && !Stops(l.token.tok)
    ensures Kinds(Tokens(s, i)) == [l.token.tok] + Kinds(Tokens(s, l.next))
  {
    assert ([l.token] + Tokens(s, l.next))[1..] == Tokens(s, l.next);
  }

  // Lexing the written pieces gives their tokens back, whatever the white space.
  lemma {:induction false} TokensRender(s: string, i: nat, ps: seq<Piece>, gaps: seq<string>)
    requires i <= |s| && |gaps| == |ps| + 1 && AllLegible(ps) && Spaced(ps)
    requires (forall k | 0 <= k < |gaps| :: IsBlank(gaps[k])) && s[i..] == Render(ps, gaps)
    ensures Kinds(Tokens(s, i)) == ToksOf(ps) + [End]
    decreases ps
  {
    if ps == [] {
      BlankRest(s, i, gaps[0]);
    } else {
      var l := FirstPiece(s, i, gaps[0], ps[0], ps[1..], gaps[1..]);
      TokensRender(s, l.next, ps[1..], gaps[1..]);
      TokensStep(s, i, l);
      assert [TokOf(ps[0])] + (ToksOf(ps[1..]) + [End]) == ToksOf(ps) + [End];
    }
  }

  // ----- the round trip -------------------------------------------------------------

  lemma {:induction false} KindsAt(ts: seq<Token>)
    ensures |Kinds(ts)| == |ts|
    ensures forall i | 0 <= i < |ts| :: Kinds(ts)[i] == ts[i].tok
  {
    if ts != [] {
      KindsAt(ts[1..]);
      assert forall i | 0 < i < |ts| :: ts[i] == ts[1..][i - 1];
    }
  }

  // Any tree, written with the parentheses precedence asks for and any white
  // space at all, is a sentence of the grammar.
  lemma PrintedSentence(a: Ast, gaps: seq<string>, env: seq<Constant>)
    requires Writable(a) && |gaps| == |Pieces(a, 0)| + 1
    requires forall k | 0 <= k < |gaps| :: IsBlank(gaps[k])
    ensures AllLegible(Pieces(a, 0))
    ensures Sentence(Show(a, 0), Tokens(Render(Pieces(a, 0), gaps), 0))
  {
    PiecesLegible(a, 0);
    PiecesSpaced(a, 0);
    PiecesYield(a, 0);
    ShowMeans(a, 0, env);
    var s := Render(Pieces(a, 0), gaps);
    assert s[0..] == s;
    TokensRender(s, 0, Pieces(a, 0), gaps);
    KindsAt(Tokens(s, 0));
  }

  // And evaluating it gives what the tree means: its value, or its error at the
  // name or operator to blame (ExprCorrect.FaultIs).
  lemma PrintedEvaluates(a: Ast, gaps: seq<string>, env: seq<Constant>)
    requires Writable(a) && |gaps| == |Pieces(a, 0)| + 1
    requires forall k | 0 <= k < |gaps| :: IsBlank(gaps[k])
    ensures AllLegible(Pieces(a, 0))
    ensures var ts := Tokens(Render(Pieces(a, 0), gaps), 0);
            && Stream(ts) && Sentence(Show(a, 0), ts)
            && Agrees(Evaluate(ts, env), Meaning(a, env), ts[|ts| - 1..], ts[Fault(Show(a, 0), env)].pos)
  {
    PrintedSentence(a, gaps, env);
    ShowMeans(a, 0, env);
    var s := Render(Pieces(a, 0), gaps);
    TokensStream(s, 0);
    EvaluateComplete(Show(a, 0), Tokens(s, 0), env);
  }
}
