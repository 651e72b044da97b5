// What the operators of the evaluator do, said by laws of arithmetic, and carried
// over to the text of an expression.
module ExprLaws {
  import opened Word32
  import opened Numerals
  import opened ExprTokens
  import opened ExprGrammar
  import opened ExprCorrect
  import opened ExprParser
  import opened ExprPrinter
  import Itoa

  // ----- laws -------------------------------------------------------------------------

  // v is the long that a 32-bit register keeps of x.
  predicate Keeps(v: int, x: int) {
    -0x8000_0000 <= v < 0x8000_0000 && (v - x) % 0x1_0000_0000 == 0
  }

  // Division towards zero: the remainder is smaller than the divisor, and zero or
  // of the sign of the dividend.
  predicate Divides(a: int, b: int, q: int, r: int) {
    && a == b * q + r
    && (if b < 0 then b < r < -b else -b < r < b)
    && (r > 0 ==> a > 0) && (r < 0 ==> a < 0)
  }

  // a, doubled n times.
  function Doubled(a: int, n: nat): int {
    if n == 0 then a else Doubled(a, n - 1) + Doubled(a, n - 1)
  }

  // The largest negative number by -1 is the one quotient that is no long.
  predicate Divisible(a: int, b: int) { b != 0 && !(a == -0x8000_0000 && b == -1) }

  // The answer of an operator to two longs.
  ghost predicate Obeys(op: Tok, a: int, b: int, answer: Answer) {
    match op
    case Plus => answer.Good? && Keeps(answer.value, a + b)
    case Minus => answer.Good? && Keeps(answer.value, a - b)
    case Star => answer.Good? && Keeps(answer.value, a * b)
    case Slash =>
      if b == 0 then answer == Wrong(DivisionByZero)
      else answer.Good? && (Divisible(a, b) ==> exists r :: Divides(a, b, answer.value, r))
    case Percent =>
      if b == 0 then answer == Wrong(DivisionByZero)
      else answer.Good? && (Divisible(a, b) ==> exists q :: Divides(a, b, q, answer.value))
    case Shl =>
      if b < 0 || b > 63 then answer == Wrong(BadShift)
      else answer.Good? && Keeps(answer.value, Doubled(a, b))
    case Shr =>
      if b < 0 || b > 63 then answer == Wrong(BadShift)
      else answer.Good? && Doubled(answer.value, b) <= a < Doubled(answer.value + 1, b)
    case _ => false
  }

  // ----- the operators keep them ------------------------------------------------------

  lemma WrapKeeps(x: int)
    ensures Keeps(Wrap(x), x)
  {
    var k := WrapOf(x);
    assert Wrap(x) - x == k * TWO32;
    AddMultiple(0, k);
  }

  lemma Multiples(x: int, y: int)
    requires x % 0x1_0000_0000 == 0 && y % 0x1_0000_0000 == 0
    ensures (x - y) % 0x1_0000_0000 == 0
  {
    var j, k := x / 0x1_0000_0000, y / 0x1_0000_0000;
    assert x - y == 0 + (j - k) * TWO32;
    AddMultiple(0, j - k);
  }

  // There is no other long that keeps x.
  lemma KeptAlone(v: int, w: int, x: int)
    requires Keeps(v, x) && Keeps(w, x)
    ensures v == w
  {
    var d := (v - x) - (w - x);
    assert d % 0x1_0000_0000 == 0 by { Multiples(v - x, w - x); }
  }

  lemma SignedProduct(b: int, m: int, p: int)
    requires p == Abs(b) * m
    ensures b * m == if b < 0 then -p else p
    ensures b * (-m) == if b < 0 then p else -p
  {
    if b < 0 {
      assert (-b) * m == -(b * m) == b * (-m);
    } else {
      assert b * (-m) == -(b * m);
    }
  }

  // |a| = |b| * m + s, and the signs put back.
  lemma SignedQuotient(a: int, b: int, m: int, s: int, p: int)
    requires b != 0 && p == Abs(b) * m && p >= 0 && Abs(a) == p + s && 0 <= s < Abs(b)
    ensures Divides(a, b, if (a < 0) == (b < 0) then m else -m, if a < 0 then -s else s)
  {
    SignedProduct(b, m, p);
  }

  // A product of whole numbers is no smaller than its factors.
  lemma ProductGrows(x: int, y: int)
    requires x >= 1 && y >= 0
    ensures x * y >= y && (x >= 2 ==> x * y >= 2 * y)
  {
    assert (x - 1) * y >= 0;
    assert x >= 2 ==> (x - 2) * y >= 0;
  }

  lemma Euclid(x: nat, y: nat) returns (m: int, s: int, p: int)
    requires y > 0
    ensures m == x / y && s == x % y && p == y * m && x == p + s && p >= 0 && m >= 0 && 0 <= s < y
    ensures m <= x && (y >= 2 ==> 2 * m <= x)
  {
    m, s := x / y, x % y;
    p := y * m;
    ProductGrows(y, m);
  }

  lemma RestIs(a: int, b: int, q: int, r: int)
    requires b != 0 && q == TruncDiv(a, b) && Divides(a, b, q, r)
    ensures Divides(a, b, q, TruncMod(a, b))
  {
    assert r == a - b * q;
  }

  lemma TruncIs(a: int, b: int, m: int)
    requires b != 0 && m == Abs(a) / Abs(b)
    ensures TruncDiv(a, b) == if (a < 0) == (b < 0) then m else -m
  {
  }

  lemma QuotientDivides(a: int, b: int)
    requires b != 0
    ensures Divides(a, b, TruncDiv(a, b), TruncMod(a, b))
  {
    var m, s, p := Euclid(Abs(a), Abs(b));
    TruncIs(a, b, m);
    SignedQuotient(a, b, m, s, p);
    RestIs(a, b, if (a < 0) == (b < 0) then m else -m, if a < 0 then -s else s);
  }

  lemma QuotientSize(a: int, b: int)
    requires b != 0
    ensures Abs(TruncDiv(a, b)) <= Abs(a) && (Abs(b) >= 2 ==> 2 * Abs(TruncDiv(a, b)) <= Abs(a))
  {
    var m, s, p := Euclid(Abs(a), Abs(b));
    TruncIs(a, b, m);
  }

  // Quotient and remainder of two longs, wherever the quotient is one.
  lemma DivisionObeys(a: int, b: int)
    requires IsLong(a) && IsLong(b) && Divisible(a, b)
    ensures var q, r := Apply(Slash, a, b), Apply(Percent, a, b);
            q.Good? && r.Good? && Divides(a, b, q.value, r.value)
  {
    QuotientDivides(a, b);
    QuotientSize(a, b);
    var q, r := TruncDiv(a, b), TruncMod(a, b);
    assert b == 1 ==> q == a;
    assert IsLong(q) && IsLong(r);
  }

  lemma FarMultiple(b: int, d: int)
    requires d != 0
    ensures Abs(b * d) >= Abs(b)
  {
    if b != 0 {
      ProductGrows(Abs(d), Abs(b));
      SignedProduct(b, d, Abs(b) * d);
      SignedProduct(d, Abs(b), Abs(d) * Abs(b));
    }
  }

  // The law leaves no choice.
  lemma DividedAlone(a: int, b: int, q: int, r: int, q': int, r': int)
    requires b != 0 && Divides(a, b, q, r) && Divides(a, b, q', r')
    ensures q == q' && r == r'
  {
    assert b * (q - q') == b * q - b * q';
    if q != q' {
      FarMultiple(b, q - q');
    }
  }

  lemma {:induction false} DoubledIs(a: int, n: nat)
    ensures Doubled(a, n) == a * Pow2(n)
  {
    if n > 0 {
      DoubledIs(a, n - 1);
      assert a * Pow2(n - 1) + a * Pow2(n - 1) == a * (2 * Pow2(n - 1));
    }
  }

  lemma Halves(a: int, n: nat)
    ensures Doubled(a / Pow2(n), n) <= a < Doubled(a / Pow2(n) + 1, n)
  {
    var p := Pow2(n);
    DoubledIs(a / p, n);
    DoubledIs(a / p + 1, n);
    assert (a / p + 1) * p == a / p * p + p;
  }

  // Dividing by a positive number leads towards zero, or -1.
  lemma ShiftedLong(a: int, p: nat)
    requires IsLong(a) && p > 0
    ensures IsLong(a / p)
  {
    var q := a / p;
    assert p * q <= a < p * q + p;
    if q >= 0 {
      ProductGrows(p, q);
    } else {
      ProductGrows(p, -q - 1);
      assert p * q + p == -(p * (-q - 1));
    }
  }

  lemma OperatorObeys(op: Tok, a: int, b: int)
    requires IsOperator(op) && IsLong(a) && IsLong(b)
    ensures Obeys(op, a, b, Apply(op, a, b))
  {
    match op
    case Plus => WrapKeeps(a + b);
    case Minus => WrapKeeps(a - b);
    case Star => WrapKeeps(a * b);
    case Slash => if Divisible(a, b) { DivisionObeys(a, b); }
    case Percent => if Divisible(a, b) { DivisionObeys(a, b); }
    case Shl => if 0 <= b < 64 { DoubledIs(a, b); WrapKeeps(a * Pow2(b)); }
    case Shr => if 0 <= b < 64 { Halves(a, b); ShiftedLong(a, Pow2(b)); }
  }

  // ----- on text ----------------------------------------------------------------------

  ghost predicate Longs(env: seq<Constant>) { forall i | 0 <= i < |env| :: IsLong(env[i].value) }

  lemma {:induction false} LookupLong(env: seq<Constant>, name: string)
    requires Longs(env)
    ensures Lookup(env, name).Some? ==> IsLong(Lookup(env, name).value)
  {
    if env != [] {
      assert forall i | 0 <= i < |env[1..]| :: env[1..][i] == env[i + 1];
      LookupLong(env[1..], name);
    }
  }

  lemma ApplyLong(op: Tok, a: int, b: int)
    requires IsOperator(op)
    ensures Apply(op, a, b).Good? ==> IsLong(Apply(op, a, b).value)
  {
  }

  lemma {:induction false} MeaningLong(a: Ast, env: seq<Constant>)
    requires Writable(a) && Longs(env)
    ensures Meaning(a, env).Good? ==> IsLong(Meaning(a, env).value)
  {
    match a
    case Num(_, _) =>
    case Var(s) => LookupLong(env, s);
    case Neg(x) => MeaningLong(x, env);
    case Pos(x) => MeaningLong(x, env);
    case Bin(op, l, r) =>
      MeaningLong(l, env);
      MeaningLong(r, env);
      if Meaning(l, env).Good? && Meaning(r, env).Good? {
        ApplyLong(op, Meaning(l, env).value, Meaning(r, env).value);
      }
  }

  // The text of a tree, with these gaps.
  ghost predicate Gapped(a: Ast, gaps: seq<string>)
    requires Writable(a)
  {
    |gaps| == |Pieces(a, 0)| + 1 && forall k | 0 <= k < |gaps| :: IsBlank(gaps[k])
  }

  function TextOf(a: Ast, gaps: seq<string>): string
    requires Writable(a) && |gaps| == |Pieces(a, 0)| + 1
  {
    PiecesLegible(a, 0);
    Render(Pieces(a, 0), gaps)
  }

  // What the evaluator makes of a text: its value or its error.
  function Answered(s: string, env: seq<Constant>): Answer {
    TokensStream(s, 0);
    match Evaluate(Tokens(s, 0), env)
    case Ok(v, _) => Good(v)
    case Err(e, _) => Wrong(e)
  }

  lemma TextMeans(a: Ast, gaps: seq<string>, env: seq<Constant>)
    requires Writable(a) && Gapped(a, gaps)
    ensures Answered(TextOf(a, gaps), env) == Meaning(a, env)
  {
    PiecesLegible(a, 0);
    PrintedEvaluates(a, gaps, env);
  }

  // The text of two trees with an operator between them, each with any white
  // space, is answered by the operator's law from the answers to their texts; the
  // error of the one on the left comes first.
  lemma BinaryText(op: Tok, l: Ast, r: Ast, gaps: seq<string>, gl: seq<string>, gr: seq<string>, env: seq<Constant>)
    requires Writable(Bin(op, l, r)) && Longs(env)
    requires Gapped(Bin(op, l, r), gaps) && Gapped(l, gl) && Gapped(r, gr)
    ensures var a, b := Answered(TextOf(l, gl), env), Answered(TextOf(r, gr), env);
            var answer := Answered(TextOf(Bin(op, l, r), gaps), env);
            if a.Wrong? then answer == a else if b.Wrong? then answer == b
            else Obeys(op, a.value, b.value, answer)
  {
    TextMeans(l, gl, env);
    TextMeans(r, gr, env);
    TextMeans(Bin(op, l, r), gaps, env);
    MeaningLong(l, env);
    MeaningLong(r, env);
    var a, b := Meaning(l, env), Meaning(r, env);
    if a.Good? && b.Good? {
      OperatorObeys(op, a.value, b.value);
    }
  }

  // The negative within 32 bits, or the same error.
  predicate Negated(a: Answer, answer: Answer) {
    if a.Wrong? then answer == a else answer.Good? && Keeps(answer.value, -a.value)
  }

  lemma NegMeaning(x: Ast, env: seq<Constant>)
    ensures Negated(Meaning(x, env), Meaning(Neg(x), env))
  {
    if Meaning(x, env).Good? {
      WrapKeeps(-Meaning(x, env).value);
    }
  }

  lemma SignText(x: Ast, gaps: seq<string>, gx: seq<string>, env: seq<Constant>)
    requires Writable(x) && Gapped(Neg(x), gaps) && Gapped(x, gx)
    ensures Negated(Answered(TextOf(x, gx), env), Answered(TextOf(Neg(x), gaps), env))
  {
    TextMeans(x, gx, env);
    TextMeans(Neg(x), gaps, env);
    NegMeaning(x, env);
  }

  lemma NumberText(n: nat, style: Style, gaps: seq<string>, env: seq<Constant>)
    requires IsLiteral(n, style) && Gapped(Num(n, style), gaps)
    ensures var answer := Answered(TextOf(Num(n, style), gaps), env); answer.Good? && Keeps(answer.value, n)
  {
    TextMeans(Num(n, style), gaps, env);
    WrapKeeps(n);
  }

  // ----- precedence -------------------------------------------------------------------

  // C's order: products before sums before shifts.
  predicate Tighter(t: Tok, u: Tok) {
    (t in {Star, Slash, Percent} && u in {Plus, Minus, Shl, Shr}) || (t in {Plus, Minus} && u in {Shl, Shr})
  }

  function Then(op: Tok, a: Answer, b: Answer): Answer
    requires IsOperator(op)
  {
    if a.Wrong? then a else if b.Wrong? then b else Apply(op, a.value, b.value)
  }

  // The tokens a, t, b, u and c.
  predicate FiveTokens(ts: seq<Tok>, a: int, t: Tok, b: int, u: Tok, c: int) {
    && |ts| == 5 && ts[0] == Number(a) && ts[1] == t && ts[2] == Number(b) && ts[3] == u && ts[4] == Number(c)
  }

  lemma YieldPair(t: Tok, x: int, y: int)
    ensures Yield(Binary(t, Literal(x), Literal(y))) == [Number(x)] + [t] + [Number(y)]
  {
  }

  lemma YieldLeft(a: int, t: Tok, b: int, u: Tok, c: int)
    ensures FiveTokens(Yield(Binary(u, Binary(t, Literal(a), Literal(b)), Literal(c))), a, t, b, u, c)
  {
    YieldPair(t, a, b);
  }

  lemma YieldRight(a: int, t: Tok, b: int, u: Tok, c: int)
    ensures FiveTokens(Yield(Binary(t, Literal(a), Binary(u, Literal(b), Literal(c)))), a, t, b, u, c)
  {
    YieldPair(u, b, c);
  }

  lemma RankTighter(t: Tok, u: Tok)
    requires IsOperator(t) && IsOperator(u)
    ensures Tighter(u, t) <==> RankOf(u) > RankOf(t)
  {
  }

  lemma PairTree(t: Tok, x: int, y: int, env: seq<Constant>)
    requires IsOperator(t)
    ensures var e := Binary(t, Literal(x), Literal(y));
            Grammatical(e) && Binding(e) == RankOf(t) && Eval(e, env) == Apply(t, x, y)
  {
  }

  lemma RightTree(t: Tok, x: int, r: Expr, env: seq<Constant>)
    requires IsOperator(t) && Grammatical(r) && Binding(r) > RankOf(t)
    ensures var e := Binary(t, Literal(x), r); Grammatical(e) && Eval(e, env) == Then(t, Good(x), Eval(r, env))
  {
  }

  lemma LeftTree(u: Tok, l: Expr, z: int, env: seq<Constant>)
    requires IsOperator(u) && Grammatical(l) && Binding(l) >= RankOf(u)
    ensures var e := Binary(u, l, Literal(z)); Grammatical(e) && Eval(e, env) == Then(u, Eval(l, env), Good(z))
  {
  }

  function Bare(ts: seq<Token>): seq<Tok> { seq(|ts|, i requires 0 <= i < |ts| => ts[i].tok) }

  lemma AnsweredAs(e: Expr, ts: seq<Token>, env: seq<Constant>, answer: Answer)
    requires Stream(ts) && Sentence(e, ts) && answer == Eval(e, env)
    ensures var o := Evaluate(ts, env);
            if answer.Good? then o.Ok? && o.value == answer.value else o.Err? && o.error == answer.error
  {
    EvaluateComplete(e, ts, env);
  }

  // Of two operators without parentheses the second comes first exactly when it
  // binds tighter; otherwise they are taken from the left.
  lemma Precedence(a: int, t: Tok, b: int, u: Tok, c: int, ts: seq<Token>, env: seq<Constant>)
    requires IsOperator(t) && IsOperator(u) && Stream(ts) && |ts| == 6
    requires FiveTokens(Bare(ts[..5]), a, t, b, u, c) && ts[5].tok == End
    ensures var o := Evaluate(ts, env);
            var answer := if Tighter(u, t) then Then(t, Good(a), Apply(u, b, c)) else Then(u, Apply(t, a, b), Good(c));
            if answer.Good? then o.Ok? && o.value == answer.value else o.Err? && o.error == answer.error
  {
    var x, y, z := Literal(a), Literal(b), Literal(c);
    assert forall i | 0 <= i < 5 :: Bare(ts[..5])[i] == ts[i].tok;
    RankTighter(t, u);
    if Tighter(u, t) {
      PairTree(u, b, c, env);
      RightTree(t, a, Binary(u, y, z), env);
      YieldRight(a, t, b, u, c);
      AnsweredAs(Binary(t, x, Binary(u, y, z)), ts, env, Then(t, Good(a), Apply(u, b, c)));
    } else {
      PairTree(t, a, b, env);
      LeftTree(u, Binary(t, x, y), c, env);
      YieldLeft(a, t, b, u, c);
      AnsweredAs(Binary(u, Binary(t, x, y), z), ts, env, Then(u, Apply(t, a, b), Good(c)));
    }
  }

  // ----- the table of constants -------------------------------------------------------

  const SMALL := "abcdefghijklmnopqrstuvwxyz"
  const CAPITAL := "ABCDEFGHIJKLMNOPQRSTUVWXYZ"

  predicate LetterIs(k: nat, c: char)
    requires k < 26
  {
    c == SMALL[k] || c == CAPITAL[k]
  }

  // The same character, or the same letter in either case.
  ghost predicate SameLetter(a: char, b: char) {
    a == b || exists k: nat | k < 26 :: LetterIs(k, a) && LetterIs(k, b)
  }

  lemma LetterAt(k: nat)
    requires k < 26
    ensures SMALL[k] == 'a' + k as char && CAPITAL[k] == 'A' + k as char
  {
  }

  // The characters names and numbers are made of, and those between them.
  lemma Letters(c: char)
    ensures IsAlpha(c) <==> c in SMALL || c in CAPITAL
  {
    forall k: nat | k < 26 ensures SMALL[k] == 'a' + k as char && CAPITAL[k] == 'A' + k as char {
      LetterAt(k);
    }
    if IsAlpha(c) {
      var k := (if 'A' <= c <= 'Z' then c - 'A' else c - 'a') as nat;
      assert c == SMALL[k] || c == CAPITAL[k];
    }
  }

  lemma Figures(c: char)
    ensures IsDigit(c) <==> c in "0123456789"
  {
    if IsDigit(c) {
      assert c == "0123456789"[(c - '0') as nat];
    }
  }

  lemma HexFigures(c: char)
    ensures IsXDigit(c) <==> IsDigit(c) || c in "abcdef" || c in "ABCDEF"
  {
    if 'a' <= c <= 'f' {
      assert c == "abcdef"[(c - 'a') as nat];
    } else if 'A' <= c <= 'F' {
      assert c == "ABCDEF"[(c - 'A') as nat];
    }
  }

  lemma Characters(c: char)
    ensures IsWord(c) <==> c in SMALL || c in CAPITAL || c in "0123456789" || c == '_'
    ensures IsXDigit(c) <==> c in "0123456789" || c in "abcdef" || c in "ABCDEF"
    ensures IsSpace(c) <==> c in {' ', '\t', '\U{0C}', '\r', '\n'}
  {
    Letters(c);
    Figures(c);
    HexFigures(c);
  }

  // The digits a token is read from: 63 characters at most.
  function Kept(s: string, i: nat, j: nat): string
    requires i <= j <= |s|
  {
    s[i..if j - i > 63 then i + 63 else j]
  }

  predicate AllFigures(d: string) { forall k | 0 <= k < |d| :: IsDigit(d[k]) }

  lemma ParsedOctal(d: string)
    requires d != "" && AllFigures(d) && d[0] == '0'
    ensures Parsed(d, 10).0 == Wrap(Value(d[1..1 + RunLength(d, 1, 8)], 8))
  {
    assert |d| > 1 ==> IsDigit(d[1]);
    assert PrefixOf(d, 10) == Prefix(1, 8, 1);
  }

  lemma ParsedDecimal(d: string)
    requires d != "" && AllFigures(d) && d[0] != '0'
    ensures Parsed(d, 10).0 == Wrap(Value(d, 10))
  {
    assert IsDigit(d[0]) && PrefixOf(d, 10) == Prefix(0, 10, 1);
    Itoa.RunToEnd(d, 0, 10);
    assert d[0..|d|] == d;
  }

  lemma ParsedHex(d: string)
    requires |d| > 1 && d[0] == '$' && forall k | 1 <= k < |d| :: IsXDigit(d[k])
    ensures Parsed(d, 16).0 == Wrap(Value(d[1..], 16))
  {
    assert PrefixOf(d, 16) == Prefix(1, 16, 1);
    Itoa.RunToEnd(d, 1, 16);
    assert d[1..|d|] == d[1..];
  }

  lemma DecimalToken(s: string, i: nat, j: nat, d: string)
    requires i < j <= |s| && (forall k | i <= k < j :: IsDigit(s[k])) && (j < |s| ==> !IsDigit(s[j]))
    requires !(s[i] == '0' && j == i + 1 < |s| && s[j] == 'x') && d == Kept(s, i, j)
    ensures d != "" && AllFigures(d) && d[0] == s[i]
    ensures LexNumber(s, i) == Lexeme(Token(Number(Parsed(d, 10).0), i), j)
  {
    SpanIs(s, i, j, IsDigit);
    assert Copied(s, i, j) == d;
  }

  lemma HexToken(s: string, i: nat, j: nat, d: string)
    requires i + 1 < j <= |s| && s[i] == '$' && d == Kept(s, i, j)
    requires (forall k | i + 1 <= k < j :: IsXDigit(s[k])) && (j < |s| ==> !IsXDigit(s[j]))
    ensures LexNumber(s, i)
         == Lexeme(Token(if j == i + 2 && s[i + 1] == '0' then Bad else Number(Parsed(d, 16).0), i), j)
  {
    SpanIs(s, if s[i + 1] == '0' then i + 2 else i + 1, j, IsXDigit);
    assert Copied(s, i, j) == d;
  }

  // A number in decimal keeps the value of its first 63 digits. A leading zero
  // makes it octal, up to the first digit that is none.
  lemma DecimalValue(s: string, i: nat, j: nat)
    requires i < j <= |s| && (forall k | i <= k < j :: IsDigit(s[k])) && (j < |s| ==> !IsDigit(s[j]))
    requires !(s[i] == '0' && j == i + 1 < |s| && s[j] == 'x')
    ensures var l, d := LexNumber(s, i), Kept(s, i, j);
            && l.next == j && l.token.pos == i && l.token.tok.Number?
            && Keeps(l.token.tok.value, if s[i] == '0' then Value(d[1..1 + RunLength(d, 1, 8)], 8) else Value(d, 10))
  {
    var d := Kept(s, i, j);
    DecimalToken(s, i, j, d);
    if s[i] == '0' {
      ParsedOctal(d);
      WrapKeeps(Value(d[1..1 + RunLength(d, 1, 8)], 8));
    } else {
      ParsedDecimal(d);
      WrapKeeps(Value(d, 10));
    }
  }

  // A number in hexadecimal keeps that of the 62 digits behind its first
  // character; `$0` and nothing behind it is none.
  lemma HexValue(s: string, i: nat, j: nat)
    requires i + 1 < j <= |s| && s[i] == '$'
    requires (forall k | i + 1 <= k < j :: IsXDigit(s[k])) && (j < |s| ==> !IsXDigit(s[j]))
    ensures var l := LexNumber(s, i);
            if j == i + 2 && s[i + 1] == '0' then l.token == Token(Bad, i) && l.next == j
            else
              && l.next == j && l.token.pos == i && l.token.tok.Number?
              && Keeps(l.token.tok.value, Value(Kept(s, i, j)[1..], 16))
  {
    var d := Kept(s, i, j);
    HexToken(s, i, j, d);
    ParsedHex(d);
    WrapKeeps(Value(d[1..], 16));
  }

  lemma SameLower(a: char, b: char)
    ensures ToLower(a) == ToLower(b) <==> SameLetter(a, b)
  {
    if a != b && ToLower(a) == ToLower(b) {
      var k := (if 'A' <= a <= 'Z' then a - 'A' else a - 'a') as nat;
      LetterAt(k);
      assert LetterIs(k, a) && LetterIs(k, b);
    }
    forall k: nat | k < 26 && LetterIs(k, a) && LetterIs(k, b) ensures ToLower(a) == ToLower(b) {
      LetterAt(k);
    }
  }

  ghost predicate Matches(a: string, b: string) {
    |a| == |b| && forall i | 0 <= i < |a| :: SameLetter(a[i], b[i])
  }

  lemma NamesMatch(a: string, b: string)
    ensures SameName(a, b) <==> Matches(a, b)
  {
    if |a| == |b| {
      forall i | 0 <= i < |a| ensures ToLower(a[i]) == ToLower(b[i]) <==> SameLetter(a[i], b[i]) {
        SameLower(a[i], b[i]);
      }
    }
  }

  // A name stands for the first constant whose name has the same letters.
  lemma {:induction false} LookupFirst(env: seq<Constant>, name: string)
    ensures var v := Lookup(env, name);
            if v.None? then forall i | 0 <= i < |env| :: !Matches(name, env[i].name)
            else exists i :: 0 <= i < |env| && Matches(name, env[i].name) && v.value == env[i].value
                             && forall j | 0 <= j < i :: !Matches(name, env[j].name)
  {
    if env != [] {
      NamesMatch(name, env[0].name);
      if !Matches(name, env[0].name) {
        LookupFirst(env[1..], name);
        assert forall j | 0 < j < |env| :: env[j] == env[1..][j - 1];
        var v := Lookup(env[1..], name);
        if v.Some? {
          var i :| 0 <= i < |env[1..]| && Matches(name, env[1..][i].name) && v.value == env[1..][i].value
                   && forall j | 0 <= j < i :: !Matches(name, env[1..][j].name);
          assert Matches(name, env[i + 1].name);
          assert forall j | 0 <= j < i + 1 :: !Matches(name, env[j].name);
        }
      }
    }
  }
}
