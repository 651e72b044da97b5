// The lexical side of src/micromon/expr.c: what next_token makes of the source
// text at a given position, and the whole token stream of a text.
module ExprTokens {
  import opened Numerals

  // A token without its position. Bad stands for text that makes the lexer
  // record an error.
  datatype Tok =
    | End | Number(value: int) | Ident(name: string)
    | Plus | Minus | Star | Slash | Percent | Shl | Shr | LParen | RParen
    | Bad

  datatype Token = Token(tok: Tok, pos: nat)

  predicate IsSpace(c: char) { c == ' ' || c == '\t' || c == '\U{0C}' || c == '\r' || c == '\n' }
  predicate IsDigit(c: char) { '0' <= c <= '9' }
  predicate IsXDigit(c: char) { '0' <= c <= '9' || 'a' <= c <= 'f' || 'A' <= c <= 'F' }
  predicate IsAlpha(c: char) { 'a' <= c <= 'z' || 'A' <= c <= 'Z' }
  predicate IsWord(c: char) { IsAlpha(c) || IsDigit(c) || c == '_' }

  function ToLower(c: char): char {
    if 'A' <= c <= 'Z' then c + 32 as char else c
  }

  // The end of the longest stretch from i whose characters all satisfy p.
  function Span(s: string, i: nat, p: char -> bool): (j: nat)
    requires i <= |s|
    ensures i <= j <= |s|
    ensures forall k | i <= k < j :: p(s[k])
    ensures j < |s| ==> !p(s[j])
    decreases |s| - i
  {
    if i < |s| && p(s[i]) then Span(s, i + 1, p) else i
  }

  // The buffer of 64 characters the digits are copied to before they are read.
  const BUFFER: nat := 64

  function Copied(s: string, i: nat, j: nat): string
    requires i <= j <= |s|
  {
    s[i..if j - i >= BUFFER then i + BUFFER - 1 else j]
  }

  // A token and the position behind it.
  datatype Lexeme = Lexeme(token: Token, next: nat)

  predicate StartsNumber(s: string, i: nat)
    requires i < |s|
  {
    IsDigit(s[i]) || (s[i] == '$' && i + 1 < |s| && IsXDigit(s[i + 1]))
  }

  // The number at i. After `$` one zero is dropped, so `$0` alone is an error,
  // and `0x` is one always. A capital X is not looked for: the comparison is what
  // tolower is applied to.
  function LexNumber(s: string, i: nat): (l: Lexeme)
    requires i < |s| && StartsNumber(s, i)
    ensures i < l.next <= |s|
  {
    if s[i] == '$' || (s[i] == '0' && i + 1 < |s| && s[i + 1] == 'x') then
      var h := if CharAt(s, i + 1) == '0' then i + 2 else i + 1;
      var j := Span(s, h, IsXDigit);
      if j == h then Lexeme(Token(Bad, i), j)
      else Lexeme(Token(Number(Parsed(Copied(s, i, j), 16).0), i), j)
    else
      var j := Span(s, i, IsDigit);
      Lexeme(Token(Number(Parsed(Copied(s, i, j), 10).0), i), j)
  }

  function Symbol(s: string, i: nat): (l: Lexeme)
    requires i < |s|
    ensures i < l.next <= |s|
  {
    match s[i]
    case '+' => Lexeme(Token(Plus, i), i + 1)
    case '-' => Lexeme(Token(Minus, i), i + 1)
    case '*' => Lexeme(Token(Star, i), i + 1)
    case '/' => Lexeme(Token(Slash, i), i + 1)
    case '%' => Lexeme(Token(Percent, i), i + 1)
    case '(' => Lexeme(Token(LParen, i), i + 1)
    case ')' => Lexeme(Token(RParen, i), i + 1)
    case '<' => if CharAt(s, i + 1) == '<' then Lexeme(Token(Shl, i), i + 2) else Lexeme(Token(Bad, i), i + 1)
    case '>' => if CharAt(s, i + 1) == '>' then Lexeme(Token(Shr, i), i + 2) else Lexeme(Token(Bad, i), i + 1)
    case _ => Lexeme(Token(Bad, i), i + 1)
  }

  // The token that starts at i, no white space before it.
  function LexAt(s: string, i: nat): (l: Lexeme)
    requires i < |s|
    ensures i < l.next <= |s|
  {
    if StartsNumber(s, i) then LexNumber(s, i)
    else if IsAlpha(s[i]) || s[i] == '_' then
      var j := Span(s, i, IsWord);
      Lexeme(Token(Ident(s[i..j]), i), j)
    else Symbol(s, i)
  }

  function Lex(s: string, i: nat): (l: Lexeme)
    requires i <= |s|
    ensures i <= l.next <= |s|
    ensures l.token.tok != End ==> i < l.next
  {
    var j := Span(s, i, IsSpace);
    if j == |s| then Lexeme(Token(End, j), j) else LexAt(s, j)
  }

  // All tokens from i on, up to and including the first End or Bad.
  function Tokens(s: string, i: nat): (ts: seq<Token>)
    requires i <= |s|
    ensures |ts| > 0
    decreases |s| - i
  {
    var l := Lex(s, i);
    if l.token.tok.End? || l.token.tok.Bad? then [l.token] else [l.token] + Tokens(s, l.next)
  }
}
