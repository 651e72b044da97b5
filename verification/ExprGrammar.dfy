// The grammar that src/micromon/expr.c parses, with its evaluation, and the
// recursive-descent parser as functions over the token stream.
module ExprGrammar {
  import opened Word32
  import opened ExprTokens

  datatype Error =
    | EmptyExpression | UnexpectedChar | Syntax | UnbalancedParens | UnknownConstant
    | DivisionByZero | TrailingTokens | BadShift

  datatype Constant = Constant(name: string, value: int)

  datatype Option<T> = None | Some(value: T)

  // ----- the table of named constants -------------------------------------------

  // Names are compared letter by letter, ignoring case.
  predicate SameName(a: string, b: string) {
    |a| == |b| && forall i | 0 <= i < |a| :: ToLower(a[i]) == ToLower(b[i])
  }

  // The first constant of that name.
  function Lookup(env: seq<Constant>, name: string): Option<int> {
    if env == [] then None
    else if SameName(name, env[0].name) then Some(env[0].value)
    else Lookup(env[1..], name)
  }

  // ----- operators ----------------------------------------------------------------

  // 0 shifts, 1 sums, 2 products.
  type Rank = n: nat | n <= 2

  predicate IsOp(t: Tok, n: Rank) {
    match n
    case 0 => t.Shl? || t.Shr?
    case 1 => t.Plus? || t.Minus?
    case 2 => t.Star? || t.Slash? || t.Percent?
  }

  predicate IsOperator(t: Tok) { IsOp(t, 0) || IsOp(t, 1) || IsOp(t, 2) }

  function RankOf(t: Tok): Rank
    requires IsOperator(t)
  {
    if IsOp(t, 0) then 0 else if IsOp(t, 1) then 1 else 2
  }

  datatype Answer = Good(value: int) | Wrong(error: Error)

  // One operation on 32-bit values.
  function Apply(op: Tok, a: int, b: int): Answer
    requires IsOperator(op)
  {
    match op
    case Star => Good(Wrap(a * b))
    case Slash => if b == 0 then Wrong(DivisionByZero) else Good(Wrap(TruncDiv(a, b)))
    case Percent => if b == 0 then Wrong(DivisionByZero) else Good(Wrap(TruncMod(a, b)))
    case Plus => Good(Wrap(a + b))
    case Minus => Good(Wrap(a - b))
    case Shl => if b < 0 || b >= 64 then Wrong(BadShift) else Good(Wrap(a * Pow2(b)))
    case Shr => if b < 0 || b >= 64 then Wrong(BadShift) else Good(Wrap(a / Pow2(b)))
  }

  // ----- the grammar ----------------------------------------------------------------

  // Expression trees with their parentheses.
  datatype Expr =
    | Literal(value: int) | Name(name: string) | Paren(inner: Expr)
    | Negate(arg: Expr) | Affirm(arg: Expr) | Binary(op: Tok, left: Expr, right: Expr)

  // How tightly the outermost operator binds: 3 for signs, 4 for the rest.
  function Binding(e: Expr): nat {
    match e
    case Binary(op, _, _) => if IsOperator(op) then RankOf(op) else 0
    case Negate(_) => 3
    case Affirm(_) => 3
    case _ => 4
  }

  // A tree of the grammar: binary operators associate to the left, signs take
  // signed or primary operands.
  predicate Grammatical(e: Expr) {
    match e
    case Literal(_) => true
    case Name(_) => true
    case Paren(x) => Grammatical(x)
    case Negate(x) => Grammatical(x) && Binding(x) >= 3
    case Affirm(x) => Grammatical(x) && Binding(x) >= 3
    case Binary(op, l, r) =>
      IsOperator(op) && Grammatical(l) && Grammatical(r) && Binding(l) >= RankOf(op) && Binding(r) > RankOf(op)
  }

  // The tokens of the sentence the tree stands for.
  function Yield(e: Expr): (ts: seq<Tok>)
    ensures |ts| > 0
  {
    match e
    case Literal(v) => [Number(v)]
    case Name(s) => [Ident(s)]
    case Paren(x) => [LParen] + Yield(x) + [RParen]
    case Negate(x) => [Minus] + Yield(x)
    case Affirm(x) => [Plus] + Yield(x)
    case Binary(op, l, r) => Yield(l) + [op] + Yield(r)
  }

  // Its value, or the error the leftmost thing that goes wrong is reported as.
  function Eval(e: Expr, env: seq<Constant>): Answer {
    match e
    case Literal(v) => Good(v)
    case Name(s) => (match Lookup(env, s) case Some(v) => Good(v) case None => Wrong(UnknownConstant))
    case Paren(x) => Eval(x, env)
    case Negate(x) => (match Eval(x, env) case Good(v) => Good(Wrap(-v)) case Wrong(err) => Wrong(err))
    case Affirm(x) => Eval(x, env)
    case Binary(op, l, r) =>
      match Eval(l, env)
      case Wrong(err) => Wrong(err)
      case Good(a) =>
        match Eval(r, env)
        case Wrong(err) => Wrong(err)
        case Good(b) => if IsOperator(op) then Apply(op, a, b) else Wrong(Syntax)
  }

  // ----- the parser, on token streams -------------------------------------------------

  predicate Stops(t: Tok) { t.End? || t.Bad? }

  // A token stream ends with its only End or Bad.
  predicate Stream(ts: seq<Token>) {
    |ts| > 0 && (if |ts| == 1 then Stops(ts[0].tok) else !Stops(ts[0].tok) && Stream(ts[1..]))
  }

  // A position the parser can be at: no lexical error so far.
  predicate Live(ts: seq<Token>) { Stream(ts) && !ts[0].tok.Bad? }

  // Value and remaining stream, or the first error and its position.
  datatype Outcome = Ok(value: int, rest: seq<Token>) | Err(error: Error, pos: nat)

  // Reading the next token, `v` in hand.
  function Advance(ts: seq<Token>, v: int): (o: Outcome)
    requires Live(ts) && !ts[0].tok.End?
    ensures o.Ok? ==> Live(o.rest) && |o.rest| == |ts| - 1 && o.value == v
  {
    if ts[1].tok.Bad? then Err(UnexpectedChar, ts[1].pos) else Ok(v, ts[1..])
  }

  function Primary(ts: seq<Token>, env: seq<Constant>): (o: Outcome)
    requires Live(ts)
    ensures o.Ok? ==> Live(o.rest) && |o.rest| < |ts|
    decreases |ts|, 0
  {
    match ts[0].tok
    case Number(v) => Advance(ts, v)
    case Ident(s) => (
      match Lookup(env, s)
      case None => Err(UnknownConstant, ts[0].pos)
      case Some(v) => Advance(ts, v))
    case LParen => (
      match Advance(ts, 0)
      case Err(e, p) => Err(e, p)
      case Ok(_, inner) =>
        match Level(0, inner, env)
        case Err(e, p) => Err(e, p)
        case Ok(v, rest) =>
          if rest[0].tok != RParen then Err(UnbalancedParens, ts[0].pos) else Advance(rest, v))
    case _ => Err(Syntax, ts[0].pos)
  }

  function Unary(ts: seq<Token>, env: seq<Constant>): (o: Outcome)
    requires Live(ts)
    ensures o.Ok? ==> Live(o.rest) && |o.rest| < |ts|
    decreases |ts|, 1
  {
    if ts[0].tok.Minus? || ts[0].tok.Plus? then
      match Advance(ts, 0)
      case Err(e, p) => Err(e, p)
      case Ok(_, arg) =>
        match Unary(arg, env)
        case Err(e, p) => Err(e, p)
        case Ok(v, rest) => Ok(if ts[0].tok.Minus? then Wrap(-v) else v, rest)
    else Primary(ts, env)
  }

  // What binds one step tighter than rank n.
  function Operand(n: Rank, ts: seq<Token>, env: seq<Constant>): (o: Outcome)
    requires Live(ts)
    ensures o.Ok? ==> Live(o.rest) && |o.rest| < |ts|
    decreases |ts|, 6 - 2 * n
  {
    if n == 2 then Unary(ts, env) else Level(n + 1, ts, env)
  }

  // parse_shift, parse_additive and parse_term for ranks 0, 1 and 2.
  function Level(n: Rank, ts: seq<Token>, env: seq<Constant>): (o: Outcome)
    requires Live(ts)
    ensures o.Ok? ==> Live(o.rest) && |o.rest| < |ts|
    decreases |ts|, 7 - 2 * n
  {
    match Operand(n, ts, env)
    case Err(e, p) => Err(e, p)
    case Ok(v, rest) => Tail(n, v, rest, env)
  }

  // Their loops, with the left-hand side so far.
  function Tail(n: Rank, lhs: int, ts: seq<Token>, env: seq<Constant>): (o: Outcome)
    requires Live(ts)
    ensures o.Ok? ==> Live(o.rest) && |o.rest| <= |ts|
    decreases |ts|, 0
  {
    if !IsOp(ts[0].tok, n) then Ok(lhs, ts)
    else
      match Advance(ts, 0)
      case Err(e, p) => Err(e, p)
      case Ok(_, arg) =>
        match Operand(n, arg, env)
        case Err(e, p) => Err(e, p)
        case Ok(rhs, rest) =>
          match Apply(ts[0].tok, lhs, rhs)
          case Wrong(e) => Err(e, ts[0].pos)
          case Good(v) => Tail(n, v, rest, env)
  }

  // expr_evaluate on a token stream.
  function Evaluate(ts: seq<Token>, env: seq<Constant>): Outcome
    requires Stream(ts)
  {
    if ts[0].tok.End? then Err(EmptyExpression, 0)
    else if ts[0].tok.Bad? then Err(UnexpectedChar, ts[0].pos)
    else
      match Level(0, ts, env)
      case Err(e, p) => Err(e, p)
      case Ok(v, rest) => if rest[0].tok.End? then Ok(v, rest) else Err(TrailingTokens, rest[0].pos)
  }
}
