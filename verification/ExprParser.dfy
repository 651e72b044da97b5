// The parser_t of src/micromon/expr.c, its fields changed in place by the lexer
// and the parse functions.
module ExprParser {
  import opened Word32
  import opened Numerals
  import opened ExprTokens
  import opened ExprGrammar

  lemma {:induction false} TokensStream(s: string, i: nat)
    requires i <= |s|
    ensures Stream(Tokens(s, i))
    decreases |s| - i
  {
    var l := Lex(s, i);
    if !Stops(l.token.tok) {
      TokensStream(s, l.next);
    }
  }

  // The tokens still to be parsed: the one looked at and those behind it.
  function Ahead(s: string, cur: Token, pos: nat): seq<Token>
    requires pos <= |s|
  {
    if cur.tok.End? then [cur] else [cur] + Tokens(s, pos)
  }

  lemma AheadLive(s: string, cur: Token, pos: nat)
    requires pos <= |s| && !cur.tok.Bad?
    ensures Live(Ahead(s, cur, pos))
  {
    if !cur.tok.End? {
      TokensStream(s, pos);
      assert ([cur] + Tokens(s, pos))[1..] == Tokens(s, pos);
    }
  }

  // One round of a parse function's loop, on streams.
  lemma TailStep(n: Rank, lhs: int, ts: seq<Token>, env: seq<Constant>)
    requires Live(ts) && IsOp(ts[0].tok, n)
    ensures var t, a := Tail(n, lhs, ts, env), Advance(ts, 0);
            if a.Err? then t == a
            else
              var o := Operand(n, a.rest, env);
              if o.Err? then t == o
              else
                var r := Apply(ts[0].tok, lhs, o.value);
                if r.Wrong? then t == Err(r.error, ts[0].pos) else t == Tail(n, r.value, o.rest, env)
  {
  }

  lemma LevelStep(n: Rank, ts: seq<Token>, env: seq<Constant>)
    requires Live(ts)
    ensures var l, o := Level(n, ts, env), Operand(n, ts, env);
            if o.Err? then l == o else l == Tail(n, o.value, o.rest, env)
  {
  }

  // The sum or difference of two longs.
  method Sum(op: Tok, a: int, b: int) returns (v: int)
    requires op.Plus? || op.Minus?
    ensures Apply(op, a, b) == Good(v)
  {
    v := if op.Plus? then Wrap(a + b) else Wrap(a - b);
  }

  // A product, or a quotient or remainder by another number than zero.
  method Product(op: Tok, a: int, b: int) returns (v: int)
    requires op.Star? || ((op.Slash? || op.Percent?) && b != 0)
    ensures Apply(op, a, b) == Good(v)
  {
    v := if op.Star? then Wrap(a * b) else if op.Slash? then Wrap(TruncDiv(a, b)) else Wrap(TruncMod(a, b));
  }

  // A long shifted by a distance the parser has checked.
  method Shifted(op: Tok, a: int, b: int) returns (v: int)
    requires (op.Shl? || op.Shr?) && 0 <= b < 64
    ensures Apply(op, a, b) == Good(v)
  {
    v := if op.Shl? then Wrap(a * Pow2(b)) else Wrap(a / Pow2(b));
  }

  class Parser {
    const src: string
    const env: seq<Constant>
    var pos: nat
    var cur: Token
    var err: Option<Error>
    var errPos: int

    ghost predicate Valid()
      reads this
    {
      pos <= |src| && (err.None? ==> !cur.tok.Bad?)
    }

    ghost function Here(): (ts: seq<Token>)
      requires Valid() && err.None?
      reads this
      ensures Live(ts)
    {
      AheadLive(src, cur, pos);
      Ahead(src, cur, pos)
    }

    ghost function Fuel(): nat
      requires Valid()
      reads this
    {
      if err.None? then |Here()| else 0
    }

    // The parser stands where the outcome says, or has recorded its error.
    ghost predicate Did(o: Outcome, v: int)
      requires Valid()
      reads this
    {
      match o
      case Ok(x, rest) => err.None? && v == x && Here() == rest
      case Err(e, p) => err == Some(e) && errPos == p
    }

    constructor (src: string, env: seq<Constant>)
      ensures this.src == src && this.env == env && Valid() && pos == 0 && err.None?
    {
      this.src := src;
      this.env := env;
      pos := 0;
      cur := Token(End, 0);
      err := None;
      errPos := -1;
    }

    // With an error pending nothing is recorded any more.
    twostate predicate Kept()
      reads this
    {
      err == old(err) && errPos == old(errPos)
    }

    // Only the first error is kept.
    method SetError(e: Error, at: int)
      modifies this`err, this`errPos
      ensures old(err).None? ==> err == Some(e) && errPos == at
      ensures old(err).Some? ==> err == old(err) && errPos == old(errPos)
    {
      if err.None? {
        err := Some(e);
        errPos := at;
      }
    }

    method SkipWhile(p: char -> bool)
      requires pos <= |src|
      modifies this`pos
      ensures pos == Span(src, old(pos), p)
    {
      while pos < |src| && p(src[pos])
        invariant pos <= |src| && Span(src, pos, p) == Span(src, old(pos), p)
        decreases |src| - pos
      {
        pos := pos + 1;
      }
    }

    // The lexer's effect, given the lexeme it met.
    twostate predicate Took(l: Lexeme)
      reads this
    {
      && pos == l.next
      && (if l.token.tok.Bad? then
            err.Some? && (old(err).None? ==> err == Some(UnexpectedChar) && errPos == l.token.pos)
          else
            cur == l.token && err == old(err) && errPos == old(errPos))
      && (old(err).Some? ==> err == old(err) && errPos == old(errPos))
    }

    // The number whose text is src[start..pos], copied to the buffer first.
    method Convert(start: nat, base: nat) returns (v: int)
      requires start <= pos <= |src| && 2 <= base <= 36
      ensures v == Parsed(Copied(src, start, pos), base).0
    {
      var buf := src[start..if pos - start >= BUFFER then start + BUFFER - 1 else pos];
      var end;
      v, end := Strtol(buf, base);
    }

    method ReadNumber()
      requires pos < |src| && StartsNumber(src, pos)
      modifies this`pos, this`cur, this`err, this`errPos
      ensures Took(LexNumber(src, old(pos)))
    {
      var start := pos;
      if src[pos] == '$' || (src[pos] == '0' && pos + 1 < |src| && src[pos + 1] == 'x') {
        pos := pos + 1;
        if CharAt(src, pos) == '0' {
          pos := pos + 1;
        }
        var hexStart := pos;
        SkipWhile(IsXDigit);
        if pos == hexStart {
          SetError(UnexpectedChar, start);
          cur := Token(Number(0), start);
          return;
        }
        var v := Convert(start, 16);
        cur := Token(Number(v), start);
      } else {
        SkipWhile(IsDigit);
        var v := Convert(start, 10);
        cur := Token(Number(v), start);
      }
    }

    method ReadSymbol()
      requires pos < |src|
      modifies this`pos, this`cur, this`err, this`errPos
      ensures Took(Symbol(src, old(pos)))
    {
      var c := src[pos];
      var start := pos;
      pos := pos + 1;
      if c == '+' {
        cur := Token(Plus, start);
      } else if c == '-' {
        cur := Token(Minus, start);
      } else if c == '*' {
        cur := Token(Star, start);
      } else if c == '/' {
        cur := Token(Slash, start);
      } else if c == '%' {
        cur := Token(Percent, start);
      } else if c == '(' {
        cur := Token(LParen, start);
      } else if c == ')' {
        cur := Token(RParen, start);
      } else if c == '<' && pos < |src| && src[pos] == '<' {
        pos := pos + 1;
        cur := Token(Shl, start);
      } else if c == '>' && pos < |src| && src[pos] == '>' {
        pos := pos + 1;
        cur := Token(Shr, start);
      } else {
        SetError(UnexpectedChar, start);
        cur := Token(End, start);
      }
    }

    method ReadToken()
      requires pos <= |src|
      modifies this`pos, this`cur, this`err, this`errPos
      ensures Took(Lex(src, old(pos)))
    {
      SkipWhile(IsSpace);
      if pos >= |src| {
        cur := Token(End, pos);
        return;
      }
      var c := src[pos];
      var start := pos;
      if IsDigit(c) || (c == '$' && pos + 1 < |src| && IsXDigit(src[pos + 1])) {
        ReadNumber();
        return;
      }
      if IsAlpha(c) || c == '_' {
        SkipWhile(IsWord);
        cur := Token(Ident(src[start..pos]), start);
        return;
      }
      ReadSymbol();
    }

    // next_token moves to the next token of the stream.
    method NextToken()
      requires Valid()
      modifies this`pos, this`cur, this`err, this`errPos
      ensures Valid() && Took(Lex(src, old(pos)))
      ensures old(err.None? && !cur.tok.End?) ==> Did(Advance(old(Here()), 0), 0)
      ensures old(err.None? && !cur.tok.End?) ==> Fuel() < old(Fuel())
      ensures old(err).Some? ==> Kept()
    {
      ReadToken();
    }

    method NamesEqual(a: string, b: string) returns (same: bool)
      ensures same == SameName(a, b)
    {
      if |a| != |b| {
        return false;
      }
      for i := 0 to |a|
        invariant forall k | 0 <= k < i :: ToLower(a[k]) == ToLower(b[k])
      {
        if ToLower(a[i]) != ToLower(b[i]) {
          return false;
        }
      }
      return true;
    }

    method LookupConstant(name: string) returns (found: Option<int>)
      ensures found == Lookup(env, name)
    {
      var i := 0;
      while i < |env|
        invariant i <= |env| && Lookup(env, name) == Lookup(env[i..], name)
      {
        assert env[i..][1..] == env[i + 1..];
        var same := NamesEqual(name, env[i].name);
        if same {
          return Some(env[i].value);
        }
        i := i + 1;
      }
      return None;
    }

    // The loop of a parse function of rank n is at its head, `lhs` in hand.
    ghost predicate Looping(n: Rank, o: Outcome, lhs: int)
      requires Valid()
      reads this
    {
      if err.None? then o == Tail(n, lhs, Here(), env)
      else o.Err? && err == Some(o.error) && errPos == o.pos
    }

    // Past the operator at the head of `ts` and its right operand, or stopped by
    // an error in one of them.
    ghost predicate Through(n: Rank, ts: seq<Token>, rhs: int)
      requires Valid() && Live(ts) && !ts[0].tok.End?
      reads this
    {
      match Advance(ts, 0)
      case Err(e, p) => err == Some(e) && errPos == p
      case Ok(_, arg) => Did(Operand(n, arg, env), rhs)
    }

    // What a round of the loop that began at `ts` comes to: another one, the error
    // it ran into, or the error of its own operator.
    lemma RoundDone(n: Rank, goal: Outcome, lhs: int, ts: seq<Token>, rhs: int, v: int)
      requires Valid() && err.None? && Live(ts) && IsOp(ts[0].tok, n)
      requires goal == Tail(n, lhs, ts, env) && Through(n, ts, rhs) && Apply(ts[0].tok, lhs, rhs) == Good(v)
      ensures Looping(n, goal, v)
    {
      TailStep(n, lhs, ts, env);
    }

    lemma RoundBroken(n: Rank, goal: Outcome, lhs: int, ts: seq<Token>, rhs: int)
      requires Valid() && err.Some? && Live(ts) && IsOp(ts[0].tok, n)
      requires goal == Tail(n, lhs, ts, env) && Through(n, ts, rhs)
      ensures Did(goal, 0)
    {
      TailStep(n, lhs, ts, env);
    }

    lemma RoundRefused(n: Rank, goal: Outcome, lhs: int, ts: seq<Token>, rhs: int)
      requires Valid() && err.None? && Live(ts) && IsOp(ts[0].tok, n)
      requires goal == Tail(n, lhs, ts, env) && Through(n, ts, rhs) && Apply(ts[0].tok, lhs, rhs).Wrong?
      ensures goal == Err(Apply(ts[0].tok, lhs, rhs).error, ts[0].pos)
    {
      TailStep(n, lhs, ts, env);
    }

    method ParseUnary() returns (v: int)
      requires Valid()
      modifies this`pos, this`cur, this`err, this`errPos
      ensures Valid() && Fuel() <= old(Fuel())
      ensures old(err).Some? ==> Kept()
      ensures old(err).None? ==> Did(Unary(old(Here()), env), v)
      decreases Fuel(), 1
    {
      if err.Some? {
        return 0;
      }
      if cur.tok.Minus? {
        NextToken();
        v := ParseUnary();
        return Wrap(-v);
      } else if cur.tok.Plus? {
        NextToken();
        v := ParseUnary();
        return v;
      }
      v := ParsePrimary();
    }

    method ParseTerm() returns (lhs: int)
      requires Valid()
      modifies this`pos, this`cur, this`err, this`errPos
      ensures Valid() && Fuel() <= old(Fuel())
      ensures old(err).Some? ==> Kept()
      ensures old(err).None? ==> Did(Level(2, old(Here()), env), lhs)
      decreases Fuel(), 2
    {
      ghost var fuel := Fuel();
      ghost var live, goal := err.None?, Err(Syntax, 0);
      if live {
        goal := Level(2, Here(), env);
        LevelStep(2, Here(), env);
      }
      lhs := ParseUnary();
      assert live ==> Looping(2, goal, lhs);
      while err.None? && (cur.tok.Star? || cur.tok.Slash? || cur.tok.Percent?)
        invariant Valid() && Fuel() <= fuel
        invariant old(err).Some? ==> Kept()
        invariant live ==> Looping(2, goal, lhs)
        decreases Fuel()
      {
        ghost var ts := Here();
        var op := cur.tok;
        var opPos := cur.pos;
        var rhs := RightOperand(2);
        if err.Some? {
          RoundBroken(2, goal, lhs, ts, rhs);
          return 0;
        }
        if !op.Star? && rhs == 0 {
          RoundRefused(2, goal, lhs, ts, rhs);
          SetError(DivisionByZero, opPos);
          return 0;
        }
        var v := Product(op, lhs, rhs);
        RoundDone(2, goal, lhs, ts, rhs, v);
        lhs := v;
      }
    }

    method ParseAdditive() returns (lhs: int)
      requires Valid()
      modifies this`pos, this`cur, this`err, this`errPos
      ensures Valid() && Fuel() <= old(Fuel())
      ensures old(err).Some? ==> Kept()
      ensures old(err).None? ==> Did(Level(1, old(Here()), env), lhs)
      decreases Fuel(), 3
    {
      ghost var fuel := Fuel();
      ghost var live, goal := err.None?, Err(Syntax, 0);
      if live {
        goal := Level(1, Here(), env);
        LevelStep(1, Here(), env);
      }
      lhs := ParseTerm();
      assert live ==> Looping(1, goal, lhs);
      while err.None? && (cur.tok.Plus? || cur.tok.Minus?)
        invariant Valid() && Fuel() <= fuel
        invariant old(err).Some? ==> Kept()
        invariant live ==> Looping(1, goal, lhs)
        decreases Fuel()
      {
        ghost var ts := Here();
        var op := cur.tok;
        var rhs := RightOperand(1);
        if err.Some? {
          RoundBroken(1, goal, lhs, ts, rhs);
          return 0;
        }
        var v := Sum(op, lhs, rhs);
        RoundDone(1, goal, lhs, ts, rhs, v);
        lhs := v;
      }
    }

    // Past an operator of rank n and its right operand.
    method RightOperand(n: Rank) returns (rhs: int)
      requires Valid() && err.None? && IsOp(cur.tok, n)
      modifies this`pos, this`cur, this`err, this`errPos
      ensures Valid() && Fuel() < old(Fuel()) && Through(n, old(Here()), rhs)
      decreases Fuel(), 0
    {
      NextToken();
      if n == 0 {
        rhs := ParseAdditive();
      } else if n == 1 {
        rhs := ParseTerm();
      } else {
        rhs := ParseUnary();
      }
    }

    method ParseShift() returns (lhs: int)
      requires Valid()
      modifies this`pos, this`cur, this`err, this`errPos
      ensures Valid() && Fuel() <= old(Fuel())
      ensures old(err).Some? ==> Kept()
      ensures old(err).None? ==> Did(Level(0, old(Here()), env), lhs)
      decreases Fuel(), 4
    {
      ghost var fuel := Fuel();
      ghost var live, goal := err.None?, Err(Syntax, 0);
      if live {
        goal := Level(0, Here(), env);
        LevelStep(0, Here(), env);
      }
      lhs := ParseAdditive();
      assert live ==> Looping(0, goal, lhs);
      while err.None? && (cur.tok.Shl? || cur.tok.Shr?)
        invariant Valid() && Fuel() <= fuel
        invariant old(err).Some? ==> Kept()
        invariant live ==> Looping(0, goal, lhs)
        decreases Fuel()
      {
        ghost var ts := Here();
        var op := cur.tok;
        var opPos := cur.pos;
        var rhs := RightOperand(0);
        if err.Some? {
          RoundBroken(0, goal, lhs, ts, rhs);
          return 0;
        }
        if rhs < 0 || rhs >= 64 {
          RoundRefused(0, goal, lhs, ts, rhs);
          SetError(BadShift, opPos);
          return 0;
        }
        var v := Shifted(op, lhs, rhs);
        RoundDone(0, goal, lhs, ts, rhs, v);
        lhs := v;
      }
    }

    method ParsePrimary() returns (v: int)
      requires Valid()
      modifies this`pos, this`cur, this`err, this`errPos
      ensures Valid() && Fuel() <= old(Fuel())
      ensures old(err).Some? ==> Kept()
      ensures old(err).None? ==> Did(Primary(old(Here()), env), v)
      decreases Fuel(), 0
    {
      if err.Some? {
        return 0;
      }
      if cur.tok.Number? {
        v := cur.tok.value;
        NextToken();
        return;
      }
      if cur.tok.Ident? {
        var found := LookupConstant(cur.tok.name);
        if found.None? {
          SetError(UnknownConstant, cur.pos);
          return 0;
        }
        NextToken();
        return found.value;
      }
      if cur.tok.LParen? {
        var openPos := cur.pos;
        NextToken();
        v := ParseShift();
        if err.Some? {
          return 0;
        }
        if cur.tok != RParen {
          SetError(UnbalancedParens, openPos);
          return 0;
        }
        NextToken();
        return;
      }
      SetError(Syntax, cur.pos);
      return 0;
    }
  }

  // expr_evaluate: the error code if any, the value, and the position reported.
  method Evaluator(expression: string, env: seq<Constant>) returns (err: Option<Error>, value: int, errorPos: int)
    ensures Stream(Tokens(expression, 0))
    ensures match Evaluate(Tokens(expression, 0), env)
            case Ok(v, _) => err == None && value == v && errorPos == 0
            case Err(e, p) => err == Some(e) && errorPos == p
  {
    TokensStream(expression, 0);
    value := 0;
    errorPos := 0;
    if expression == "" {
      return Some(EmptyExpression), 0, 0;
    }
    var p := new Parser(expression, env);
    p.NextToken();
    if p.cur.tok.End? && p.err.None? {
      return Some(EmptyExpression), 0, 0;
    }
    ghost var ok := p.err.None?;
    assert ok ==> p.Here() == Tokens(expression, 0);
    var v := p.ParseShift();
    if p.err.Some? {
      return p.err, 0, p.errPos;
    }
    if !p.cur.tok.End? {
      return Some(TrailingTokens), 0, p.cur.pos;
    }
    return None, v, 0;
  }
}
