// Which error a stream that is no sentence is answered with: read off the shape of
// the stream, from left to right, with the open parentheses on a stack.
module ExprShape {
  import opened ExprTokens
  import opened ExprGrammar
  import opened ExprCorrect

  datatype Verdict = Fine | Odd(error: Error, pos: nat)

  // The errors that have to do with shape alone.
  predicate Shapely(e: Error) {
    e.EmptyExpression? || e.UnexpectedChar? || e.Syntax? || e.UnbalancedParens? || e.TrailingTokens?
  }

  // Behind an operator, a sign, an opening parenthesis or nothing a value is
  // called for; behind a value an operator, the parenthesis that closes the
  // innermost one, or the end. `opens` is where the open ones stand, the
  // innermost first.
  function Scan(opens: seq<nat>, wanting: bool, ts: seq<Token>): Verdict
    requires Stream(ts)
    decreases |ts|
  {
    var t, at := ts[0].tok, ts[0].pos;
    if t.Bad? then Odd(UnexpectedChar, at)
    else if wanting then
      if t.Number? || t.Ident? then Scan(opens, false, ts[1..])
      else if t.Plus? || t.Minus? then Scan(opens, true, ts[1..])
      else if t.LParen? then Scan([at] + opens, true, ts[1..])
      else Odd(Syntax, at)
    else if t.Plus? || t.Minus? || t.Star? || t.Slash? || t.Percent? || t.Shl? || t.Shr? then
      Scan(opens, true, ts[1..])
    else if opens == [] then if t.End? then Fine else Odd(TrailingTokens, at)
    else if t.RParen? then Scan(opens[1..], false, ts[1..])
    else Odd(UnbalancedParens, opens[0])
  }

  function Shape(ts: seq<Token>): Verdict
    requires Stream(ts)
  {
    if ts[0].tok.End? then Odd(EmptyExpression, 0) else Scan([], true, ts)
  }

  // The other errors point at a token they fit.
  ghost predicate Points(ts: seq<Token>, e: Error, p: nat, env: seq<Constant>) {
    exists k :: 0 <= k < |ts| && ts[k].pos == p && Blames(e, ts[k].tok, env)
  }

  ghost predicate Behind(rest: seq<Token>, ts: seq<Token>) {
    |rest| <= |ts| && rest == ts[|ts| - |rest|..]
  }

  // What comes of parsing from a place where the scan stands at `from`.
  ghost predicate Follows(opens: seq<nat>, from: Verdict, ts: seq<Token>, o: Outcome, env: seq<Constant>) {
    if o.Ok? then Live(o.rest) && Behind(o.rest, ts) && from == Scan(opens, false, o.rest)
    else if Shapely(o.error) then from == Odd(o.error, o.pos)
    else Points(ts, o.error, o.pos, env)
  }

  // No operator of rank n or tighter comes next.
  predicate Settled(ts: seq<Token>, n: int)
    requires |ts| > 0
  {
    (n <= 2 ==> !IsOp(ts[0].tok, 2)) && (n <= 1 ==> !IsOp(ts[0].tok, 1)) && (n <= 0 ==> !IsOp(ts[0].tok, 0))
  }

  lemma PointsBehind(rest: seq<Token>, ts: seq<Token>, e: Error, p: nat, env: seq<Constant>)
    requires Behind(rest, ts) && Points(rest, e, p, env)
    ensures Points(ts, e, p, env)
  {
    var k :| 0 <= k < |rest| && rest[k].pos == p && Blames(e, rest[k].tok, env);
    assert ts[|ts| - |rest| + k] == rest[k];
  }

  lemma BehindBehind(a: seq<Token>, b: seq<Token>, c: seq<Token>)
    requires Behind(a, b) && Behind(b, c)
    ensures Behind(a, c)
  {
    assert c[|c| - |b|..][|b| - |a|..] == c[|c| - |a|..];
  }

  // The same from a place further on.
  lemma FollowsBehind(opens: seq<nat>, from: Verdict, mid: seq<Token>, ts: seq<Token>, o: Outcome, env: seq<Constant>)
    requires Behind(mid, ts) && Follows(opens, from, mid, o, env)
    ensures Follows(opens, from, ts, o, env)
  {
    match o
    case Ok(_, rest) => BehindBehind(rest, mid, ts);
    case Err(e, p) => if !Shapely(e) { PointsBehind(mid, ts, e, p, env); }
  }

  // Reading one token on.
  lemma AdvanceFollows(opens: seq<nat>, wanting: bool, ts: seq<Token>, v: int, env: seq<Constant>)
    requires Live(ts) && !ts[0].tok.End?
    ensures var o := Advance(ts, v);
            if o.Ok? then o.rest == ts[1..] && Live(ts[1..]) && Behind(ts[1..], ts)
            else Shapely(o.error) && Scan(opens, wanting, ts[1..]) == Odd(o.error, o.pos)
  {
  }

  // At the end of what stands in parentheses.
  lemma CloseShape(opens: seq<nat>, at: nat, o: Outcome, ts: seq<Token>, env: seq<Constant>)
    requires o.Ok? && Live(o.rest) && Settled(o.rest, 0) && Behind(o.rest, ts)
    ensures var p := if o.rest[0].tok != RParen then Err(UnbalancedParens, at) else Advance(o.rest, o.value);
            Follows(opens, Scan([at] + opens, false, o.rest), ts, p, env)
  {
    assert ([at] + opens)[1..] == opens;
    if o.rest[0].tok == RParen {
      AdvanceFollows(opens, false, o.rest, o.value, env);
      BehindBehind(o.rest[1..], o.rest, ts);
    }
  }

  lemma UnaryShape(opens: seq<nat>, ts: seq<Token>, env: seq<Constant>)
    requires Live(ts)
    ensures Follows(opens, Scan(opens, true, ts), ts, Unary(ts, env), env)
    decreases |ts|, 2
  {
    if ts[0].tok.Minus? || ts[0].tok.Plus? {
      AdvanceFollows(opens, true, ts, 0, env);
      if Advance(ts, 0).Ok? {
        UnaryShape(opens, ts[1..], env);
        FollowsBehind(opens, Scan(opens, true, ts), ts[1..], ts, Unary(ts[1..], env), env);
      }
    } else {
      PrimaryShape(opens, ts, env);
    }
  }

  lemma OperandShape(opens: seq<nat>, n: Rank, ts: seq<Token>, env: seq<Constant>)
    requires Live(ts)
    ensures Follows(opens, Scan(opens, true, ts), ts, Operand(n, ts, env), env)
    ensures Operand(n, ts, env).Ok? ==> Settled(Operand(n, ts, env).rest, n + 1)
    decreases |ts|, 8 - 2 * n
  {
    if n == 2 {
      UnaryShape(opens, ts, env);
    } else {
      LevelShape(opens, n + 1, ts, env);
    }
  }

  lemma TailShape(opens: seq<nat>, n: Rank, lhs: int, ts: seq<Token>, env: seq<Constant>)
    requires Live(ts) && Settled(ts, n + 1)
    ensures Follows(opens, Scan(opens, false, ts), ts, Tail(n, lhs, ts, env), env)
    ensures Tail(n, lhs, ts, env).Ok? ==> Settled(Tail(n, lhs, ts, env).rest, n)
    decreases |ts|, 0
  {
    if IsOp(ts[0].tok, n) {
      AdvanceFollows(opens, true, ts, 0, env);
      if Advance(ts, 0).Ok? {
        OperandShape(opens, n, ts[1..], env);
        var o := Operand(n, ts[1..], env);
        FollowsBehind(opens, Scan(opens, true, ts[1..]), ts[1..], ts, o, env);
        if o.Ok? {
          var a := Apply(ts[0].tok, lhs, o.value);
          if a.Good? {
            TailShape(opens, n, a.value, o.rest, env);
            FollowsBehind(opens, Scan(opens, false, o.rest), o.rest, ts, Tail(n, a.value, o.rest, env), env);
          } else {
            assert Blames(a.error, ts[0].tok, env);
          }
        }
      }
    } else {
      assert ts[0..] == ts;
    }
  }

  lemma LevelShape(opens: seq<nat>, n: Rank, ts: seq<Token>, env: seq<Constant>)
    requires Live(ts)
    ensures Follows(opens, Scan(opens, true, ts), ts, Level(n, ts, env), env)
    ensures Level(n, ts, env).Ok? ==> Settled(Level(n, ts, env).rest, n)
    decreases |ts|, 9 - 2 * n
  {
    OperandShape(opens, n, ts, env);
    var o := Operand(n, ts, env);
    if o.Ok? {
      TailShape(opens, n, o.value, o.rest, env);
      FollowsBehind(opens, Scan(opens, false, o.rest), o.rest, ts, Tail(n, o.value, o.rest, env), env);
    }
  }

  lemma ParenShape(opens: seq<nat>, ts: seq<Token>, env: seq<Constant>)
    requires Live(ts) && ts[0].tok.LParen?
    ensures Follows(opens, Scan(opens, true, ts), ts, Primary(ts, env), env)
    decreases |ts|, 0
  {
    var at := ts[0].pos;
    var inner := [at] + opens;
    AdvanceFollows(inner, true, ts, 0, env);
    if Advance(ts, 0).Ok? {
      LevelShape(inner, 0, ts[1..], env);
      var o := Level(0, ts[1..], env);
      FollowsBehind(inner, Scan(inner, true, ts[1..]), ts[1..], ts, o, env);
      if o.Ok? {
        CloseShape(opens, at, o, ts, env);
      }
    }
  }

  lemma PrimaryShape(opens: seq<nat>, ts: seq<Token>, env: seq<Constant>)
    requires Live(ts) && !(ts[0].tok.Plus? || ts[0].tok.Minus?)
    ensures Follows(opens, Scan(opens, true, ts), ts, Primary(ts, env), env)
    decreases |ts|, 1
  {
    var t := ts[0].tok;
    if t.Number? || t.Ident? {
      AdvanceFollows(opens, false, ts, 0, env);
      if t.Ident? && Lookup(env, t.name).None? {
        assert Blames(UnknownConstant, ts[0].tok, env);
      } else {
        var v := if t.Number? then t.value else Lookup(env, t.name).value;
        AdvanceFollows(opens, false, ts, v, env);
      }
    } else if t.LParen? {
      ParenShape(opens, ts, env);
    }
  }

  // An error in the shape of a stream is answered as the scan finds it; any other
  // error points at a name, a division or a shift it fits; and where the answer is
  // a value there was nothing to find.
  lemma ErrorShape(ts: seq<Token>, env: seq<Constant>)
    requires Stream(ts)
    ensures var o := Evaluate(ts, env);
            if o.Ok? then Shape(ts) == Fine
            else if Shapely(o.error) then Shape(ts) == Odd(o.error, o.pos)
            else Points(ts, o.error, o.pos, env)
  {
    if Live(ts) && !ts[0].tok.End? {
      LevelShape([], 0, ts, env);
    }
  }
}
