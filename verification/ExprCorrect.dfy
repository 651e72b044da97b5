// The parser accepts exactly the sentences of the grammar, and gives each the
// value of its tree.
module ExprCorrect {
  import opened ExprTokens
  import opened ExprGrammar

  // `ts` is the tokens `toks` followed by `rest`.
  predicate Spells(ts: seq<Token>, toks: seq<Tok>, rest: seq<Token>)
    decreases toks
  {
    if toks == [] then ts == rest
    else |ts| > 0 && ts[0].tok == toks[0] && Spells(ts[1..], toks[1..], rest)
  }

  lemma {:induction false} SpellsJoin(ts: seq<Token>, a: seq<Tok>, mid: seq<Token>, b: seq<Tok>, rest: seq<Token>)
    requires Spells(ts, a, mid) && Spells(mid, b, rest)
    ensures Spells(ts, a + b, rest)
    decreases a
  {
    if a == [] {
      assert a + b == b;
    } else {
      assert (a + b)[1..] == a[1..] + b;
      SpellsJoin(ts[1..], a[1..], mid, b, rest);
    }
  }

  lemma {:induction false} SpellsCut(ts: seq<Token>, a: seq<Tok>, b: seq<Tok>, rest: seq<Token>)
    returns (mid: seq<Token>)
    requires Spells(ts, a + b, rest)
    ensures Spells(ts, a, mid) && Spells(mid, b, rest)
    decreases a
  {
    if a == [] {
      assert a + b == b;
      mid := ts;
    } else {
      assert (a + b)[1..] == a[1..] + b;
      mid := SpellsCut(ts[1..], a[1..], b, rest);
    }
  }

  lemma {:induction false} SpellsBehind(ts: seq<Token>, toks: seq<Tok>, rest: seq<Token>)
    requires Spells(ts, toks, rest)
    ensures |ts| == |toks| + |rest| && ts[|toks|..] == rest
    decreases toks
  {
    if toks != [] { SpellsBehind(ts[1..], toks[1..], rest); }
  }

  lemma {:induction false} SpellsOne(ts: seq<Token>, t: Tok)
    requires |ts| > 0 && ts[0].tok == t
    ensures Spells(ts, [t], ts[1..])
  {
    assert [t][1..] == [];
  }

  // ----- soundness ----------------------------------------------------------------

  // The tree spells out what the parser consumed and has the value it returned.
  ghost predicate Explains(e: Expr, ts: seq<Token>, o: Outcome, env: seq<Constant>) {
    && o.Ok?
    && Grammatical(e)
    && Spells(ts, Yield(e), o.rest)
    && Eval(e, env) == Good(o.value)
  }

  lemma PrimarySound(ts: seq<Token>, env: seq<Constant>) returns (e: Expr)
    requires Live(ts) && Primary(ts, env).Ok?
    ensures Explains(e, ts, Primary(ts, env), env) && Binding(e) == 4
    decreases |ts|, 0
  {
    SpellsOne(ts, ts[0].tok);
    match ts[0].tok
    case Number(v) => e := Literal(v);
    case Ident(s) => e := Name(s);
    case LParen =>
      var x := LevelSound(0, ts[1..], env);
      e := Paren(x);
      var rest := Level(0, ts[1..], env).rest;
      SpellsOne(rest, RParen);
      SpellsJoin(ts, [LParen], ts[1..], Yield(x), rest);
      SpellsJoin(ts, [LParen] + Yield(x), rest, [RParen], rest[1..]);
  }

  lemma UnarySound(ts: seq<Token>, env: seq<Constant>) returns (e: Expr)
    requires Live(ts) && Unary(ts, env).Ok?
    ensures Explains(e, ts, Unary(ts, env), env) && Binding(e) >= 3
    decreases |ts|, 1
  {
    var t := ts[0].tok;
    if t.Minus? || t.Plus? {
      var x := UnarySound(ts[1..], env);
      e := if t.Minus? then Negate(x) else Affirm(x);
      SpellsOne(ts, t);
      SpellsJoin(ts, [t], ts[1..], Yield(x), Unary(ts[1..], env).rest);
    } else {
      e := PrimarySound(ts, env);
    }
  }

  lemma OperandSound(n: Rank, ts: seq<Token>, env: seq<Constant>) returns (e: Expr)
    requires Live(ts) && Operand(n, ts, env).Ok?
    ensures Explains(e, ts, Operand(n, ts, env), env) && Binding(e) > n
    decreases |ts|, 6 - 2 * n
  {
    if n == 2 {
      e := UnarySound(ts, env);
    } else {
      e := LevelSound(n + 1, ts, env);
    }
  }

  lemma LevelSound(n: Rank, ts: seq<Token>, env: seq<Constant>) returns (e: Expr)
    requires Live(ts) && Level(n, ts, env).Ok?
    ensures Explains(e, ts, Level(n, ts, env), env) && Binding(e) >= n
    decreases |ts|, 7 - 2 * n
  {
    var l := OperandSound(n, ts, env);
    var o := Operand(n, ts, env);
    e := TailSound(n, ts, l, o.value, o.rest, env);
  }

  // The loop extends the tree it starts with to the right.
  lemma TailSound(n: Rank, all: seq<Token>, l: Expr, lhs: int, ts: seq<Token>, env: seq<Constant>) returns (e: Expr)
    requires Live(ts) && Tail(n, lhs, ts, env).Ok?
    requires Explains(l, all, Ok(lhs, ts), env) && Binding(l) >= n
    ensures Explains(e, all, Tail(n, lhs, ts, env), env) && Binding(e) >= n
    decreases |ts|, 0
  {
    var op := ts[0].tok;
    if !IsOp(op, n) {
      e := l;
    } else {
      var r := OperandSound(n, ts[1..], env);
      var o := Operand(n, ts[1..], env);
      SpellsOne(ts, op);
      SpellsJoin(all, Yield(l), ts, [op], ts[1..]);
      SpellsJoin(all, Yield(l) + [op], ts[1..], Yield(r), o.rest);
      e := TailSound(n, all, Binary(op, l, r), Apply(op, lhs, o.value).value, o.rest, env);
    }
  }

  // ----- completeness ---------------------------------------------------------------

  // A stream without lexical errors.
  predicate Clean(ts: seq<Token>) {
    |ts| > 0 && (if |ts| == 1 then ts[0].tok.End? else !Stops(ts[0].tok) && Clean(ts[1..]))
  }

  // What comes next is no operator that binds tighter than rank n.
  predicate Closed(ts: seq<Token>, n: int)
    requires |ts| > 0
  {
    (n < 2 ==> !IsOp(ts[0].tok, 2)) && (n < 1 ==> !IsOp(ts[0].tok, 1)) && (n < 0 ==> !IsOp(ts[0].tok, 0))
  }

  // Which token of its sentence a tree that goes wrong goes wrong at: a name
  // nobody knows, or the leftmost operator that cannot be applied.
  function Fault(e: Expr, env: seq<Constant>): (k: nat)
    ensures k < |Yield(e)|
  {
    match e
    case Literal(_) => 0
    case Name(_) => 0
    case Paren(x) => 1 + Fault(x, env)
    case Negate(x) => 1 + Fault(x, env)
    case Affirm(x) => 1 + Fault(x, env)
    case Binary(_, l, r) =>
      if Eval(l, env).Wrong? then Fault(l, env)
      else if Eval(r, env).Wrong? then |Yield(l)| + 1 + Fault(r, env)
      else |Yield(l)|
  }

  // The error fits the token.
  predicate Blames(error: Error, t: Tok, env: seq<Constant>) {
    match error
    case UnknownConstant => t.Ident? && Lookup(env, t.name).None?
    case DivisionByZero => t.Slash? || t.Percent?
    case BadShift => t.Shl? || t.Shr?
    case _ => false
  }

  lemma {:induction false} FaultIs(e: Expr, env: seq<Constant>)
    requires Grammatical(e) && Eval(e, env).Wrong?
    ensures Blames(Eval(e, env).error, Yield(e)[Fault(e, env)], env)
  {
    match e
    case Literal(_) =>
    case Name(_) =>
    case Paren(x) => FaultIs(x, env);
    case Negate(x) => FaultIs(x, env);
    case Affirm(x) => FaultIs(x, env);
    case Binary(_, l, r) =>
      if Eval(l, env).Wrong? {
        FaultIs(l, env);
      } else if Eval(r, env).Wrong? {
        FaultIs(r, env);
      }
  }

  // The tree's value with its sentence consumed, or the tree's error, reported
  // at that position.
  predicate Agrees(o: Outcome, a: Answer, rest: seq<Token>, at: nat) {
    if a.Good? then o == Ok(a.value, rest) else o == Err(a.error, at)
  }

  // The position of the token a tree goes wrong at.
  function FaultPos(e: Expr, ts: seq<Token>, env: seq<Constant>): nat {
    if Fault(e, env) < |ts| then ts[Fault(e, env)].pos else 0
  }

  lemma {:induction false} CleanLive(ts: seq<Token>)
    requires Clean(ts)
    ensures Live(ts)
  {
    if |ts| > 1 { CleanLive(ts[1..]); }
  }

  lemma AdvanceClean(ts: seq<Token>, v: int)
    requires Clean(ts) && !ts[0].tok.End?
    ensures Live(ts) && Advance(ts, v) == Ok(v, ts[1..]) && Clean(ts[1..]) && Live(ts[1..])
  {
    CleanLive(ts);
    CleanLive(ts[1..]);
  }

  // Consuming a sentence, none of whose tokens is End, leaves a clean stream.
  lemma {:induction false} SpellsClean(ts: seq<Token>, toks: seq<Tok>, rest: seq<Token>)
    requires Clean(ts) && Spells(ts, toks, rest) && forall i | 0 <= i < |toks| :: !Stops(toks[i])
    ensures Clean(rest)
    decreases toks
  {
    if toks != [] { SpellsClean(ts[1..], toks[1..], rest); }
  }

  lemma {:induction false} YieldPlain(e: Expr)
    requires Grammatical(e)
    ensures forall i | 0 <= i < |Yield(e)| :: !Stops(Yield(e)[i])
  {
    match e
    case Literal(_) =>
    case Name(_) =>
    case Paren(x) => YieldPlain(x);
    case Negate(x) => YieldPlain(x);
    case Affirm(x) => YieldPlain(x);
    case Binary(op, l, r) => YieldPlain(l); YieldPlain(r);
  }

  // The parser is at the sentence of the tree, with `rest` behind it.
  ghost predicate At(e: Expr, ts: seq<Token>, rest: seq<Token>) {
    Grammatical(e) && Clean(ts) && Clean(rest) && Spells(ts, Yield(e), rest)
  }

  // One token in front.
  lemma FirstToken(e: Expr, t: Tok, body: seq<Tok>, ts: seq<Token>, rest: seq<Token>)
    requires At(e, ts, rest) && Yield(e) == [t] + body && !Stops(t)
    ensures |ts| > |body| && ts[0].tok == t
    ensures Clean(ts[1..]) && Live(ts) && Live(ts[1..]) && Spells(ts[1..], body, rest)
    ensures forall v :: Advance(ts, v) == Ok(v, ts[1..])
  {
    assert ([t] + body)[1..] == body;
    SpellsBehind(ts, Yield(e), rest);
    AdvanceClean(ts, 0);
  }

  lemma SignComplete(e: Expr, x: Expr, ts: seq<Token>, rest: seq<Token>, env: seq<Constant>)
    requires (e == Negate(x) || e == Affirm(x)) && At(e, ts, rest)
    ensures Live(ts) && Agrees(Unary(ts, env), Eval(e, env), rest, FaultPos(e, ts, env))
    decreases e, 0
  {
    FirstToken(e, if e.Negate? then Minus else Plus, Yield(x), ts, rest);
    UnaryComplete(x, ts[1..], rest, env);
  }

  // What is answered for the parenthesis at the head, given what is for its inside.
  lemma ParenStep(ts: seq<Token>, env: seq<Constant>, o: Outcome)
    requires Live(ts) && ts[0].tok == LParen && Advance(ts, 0) == Ok(0, ts[1..])
    requires Live(ts[1..]) && o == Level(0, ts[1..], env)
    ensures Unary(ts, env)
         == if o.Err? then o
            else if o.rest[0].tok != RParen then Err(UnbalancedParens, ts[0].pos)
            else Advance(o.rest, o.value)
  {
  }

  lemma ParenInside(x: Expr, ts: seq<Token>, rest: seq<Token>) returns (mid: seq<Token>)
    requires At(Paren(x), ts, rest)
    ensures Live(ts) && ts[0].tok == LParen && Live(ts[1..]) && Advance(ts, 0) == Ok(0, ts[1..])
    ensures At(x, ts[1..], mid) && mid[0].tok == RParen && Live(mid)
    ensures forall v :: Advance(mid, v) == Ok(v, rest)
  {
    assert Yield(Paren(x)) == [LParen] + (Yield(x) + [RParen]);
    FirstToken(Paren(x), LParen, Yield(x) + [RParen], ts, rest);
    mid := SpellsCut(ts[1..], Yield(x), [RParen], rest);
    YieldPlain(x);
    SpellsClean(ts[1..], Yield(x), mid);
    AdvanceClean(mid, 0);
  }

  lemma ParenComplete(x: Expr, ts: seq<Token>, rest: seq<Token>, env: seq<Constant>)
    requires At(Paren(x), ts, rest)
    ensures Live(ts) && Agrees(Unary(ts, env), Eval(x, env), rest, FaultPos(Paren(x), ts, env))
    decreases Paren(x), 0
  {
    var mid := ParenInside(x, ts, rest);
    LevelComplete(0, x, ts[1..], mid, env);
    ParenStep(ts, env, Level(0, ts[1..], env));
  }

  lemma UnaryComplete(e: Expr, ts: seq<Token>, rest: seq<Token>, env: seq<Constant>)
    requires At(e, ts, rest) && Binding(e) >= 3
    ensures Live(ts) && Agrees(Unary(ts, env), Eval(e, env), rest, FaultPos(e, ts, env))
    decreases e, 1
  {
    CleanLive(ts);
    match e
    case Literal(v) => FirstToken(e, Number(v), [], ts, rest);
    case Name(s) => FirstToken(e, Ident(s), [], ts, rest);
    case Negate(x) => SignComplete(e, x, ts, rest, env);
    case Affirm(x) => SignComplete(e, x, ts, rest, env);
    case Paren(x) => ParenComplete(x, ts, rest, env);
  }

  lemma OperandComplete(n: Rank, e: Expr, ts: seq<Token>, rest: seq<Token>, env: seq<Constant>)
    requires At(e, ts, rest) && Binding(e) > n && Closed(rest, n)
    ensures Live(ts) && Agrees(Operand(n, ts, env), Eval(e, env), rest, FaultPos(e, ts, env))
    decreases e, 6 - 2 * n
  {
    CleanLive(ts);
    if n == 2 {
      UnaryComplete(e, ts, rest, env);
    } else {
      LevelComplete(n + 1, e, ts, rest, env);
    }
  }

  // The stream at a binary tree: left operand, operator, right operand.
  lemma BinaryCut(op: Tok, l: Expr, r: Expr, ts: seq<Token>, rest: seq<Token>) returns (mid: seq<Token>)
    requires At(Binary(op, l, r), ts, rest)
    ensures At(l, ts, mid) && mid[0].tok == op && Live(mid) && At(r, mid[1..], rest)
    ensures Advance(mid, 0) == Ok(0, mid[1..])
    ensures |ts| == |Yield(l)| + |mid| && ts[|Yield(l)|..] == mid
  {
    assert Yield(Binary(op, l, r)) == Yield(l) + ([op] + Yield(r));
    mid := SpellsCut(ts, Yield(l), [op] + Yield(r), rest);
    SpellsBehind(ts, Yield(l), mid);
    YieldPlain(l);
    SpellsClean(ts, Yield(l), mid);
    assert ([op] + Yield(r))[1..] == Yield(r);
    AdvanceClean(mid, 0);
  }

  // Behind a left operand that has a value, the fault is the right operand's or
  // the operator.
  lemma FaultRight(op: Tok, l: Expr, r: Expr, ts: seq<Token>, mid: seq<Token>, rest: seq<Token>, env: seq<Constant>)
    requires |mid| > 0 && |ts| == |Yield(l)| + |mid| && ts[|Yield(l)|..] == mid
    requires Spells(mid[1..], Yield(r), rest) && Eval(l, env).Good?
    ensures FaultPos(Binary(op, l, r), ts, env)
         == if Eval(r, env).Wrong? then FaultPos(r, mid[1..], env) else mid[0].pos
  {
    SpellsBehind(mid[1..], Yield(r), rest);
    var k := |Yield(l)|;
    assert mid[0] == ts[k];
    assert mid[1..][Fault(r, env)] == ts[k + 1 + Fault(r, env)];
  }

  // With the tree's value in hand the parser is in its loop behind the sentence.
  lemma LevelComplete(n: Rank, e: Expr, ts: seq<Token>, rest: seq<Token>, env: seq<Constant>)
    requires At(e, ts, rest) && Binding(e) >= n && Closed(rest, n)
    ensures Live(ts) && Live(rest)
    ensures Eval(e, env).Good? ==> Level(n, ts, env) == Tail(n, Eval(e, env).value, rest, env)
    ensures Eval(e, env).Wrong? ==> Level(n, ts, env) == Err(Eval(e, env).error, FaultPos(e, ts, env))
    decreases e, 7 - 2 * n
  {
    CleanLive(ts);
    CleanLive(rest);
    if Binding(e) > n {
      OperandComplete(n, e, ts, rest, env);
    } else {
      var Binary(op, l, r) := e;
      var mid := BinaryCut(op, l, r, ts, rest);
      LevelComplete(n, l, ts, mid, env);
      if Eval(l, env).Good? {
        OperandComplete(n, r, mid[1..], rest, env);
        FaultRight(op, l, r, ts, mid, rest, env);
      }
    }
  }

  // ----- the two together -------------------------------------------------------------

  // The stream is exactly the tree's sentence.
  ghost predicate Sentence(e: Expr, ts: seq<Token>) {
    && Grammatical(e)
    && |ts| == |Yield(e)| + 1
    && ts[|ts| - 1].tok.End?
    && forall i | 0 <= i < |Yield(e)| :: ts[i].tok == Yield(e)[i]
  }

  lemma {:induction false} SpellsAll(ts: seq<Token>, toks: seq<Tok>, end: Token)
    ensures Spells(ts, toks, [end]) <==>
            |ts| == |toks| + 1 && ts[|toks|] == end && forall i | 0 <= i < |toks| :: ts[i].tok == toks[i]
    decreases toks
  {
    if toks != [] && |ts| > 0 && ts[0].tok == toks[0] {
      var ts', toks' := ts[1..], toks[1..];
      SpellsAll(ts', toks', end);
      assert forall i | 0 < i < |toks| :: toks[i] == toks'[i - 1];
      assert forall i | 0 < i < |ts| :: ts[i] == ts'[i - 1];
      if |ts'| == |toks'| + 1 && forall i | 0 <= i < |toks'| :: ts'[i].tok == toks'[i] {
        assert forall i | 0 < i < |toks| :: ts[i].tok == toks[i];
      }
    }
  }

  lemma {:induction false} StreamClean(ts: seq<Token>)
    requires Stream(ts) && ts[|ts| - 1].tok.End?
    ensures Clean(ts)
  {
    if |ts| > 1 { StreamClean(ts[1..]); }
  }

  // A sentence evaluates to its tree's value, or fails with its tree's error at
  // the token the tree goes wrong at.
  lemma {:induction false} EvaluateComplete(e: Expr, ts: seq<Token>, env: seq<Constant>)
    requires Stream(ts) && Sentence(e, ts)
    ensures Agrees(Evaluate(ts, env), Eval(e, env), ts[|ts| - 1..], ts[Fault(e, env)].pos)
  {
    var end := ts[|ts| - 1];
    assert ts[|ts| - 1..] == [end];
    SpellsAll(ts, Yield(e), end);
    StreamClean(ts);
    YieldPlain(e);
    LevelComplete(0, e, ts, [end], env);
  }

  lemma EvaluateSound(ts: seq<Token>, env: seq<Constant>) returns (e: Expr)
    requires Stream(ts) && Evaluate(ts, env).Ok?
    ensures Sentence(e, ts) && Eval(e, env) == Good(Evaluate(ts, env).value)
  {
    e := LevelSound(0, ts, env);
    var rest := Evaluate(ts, env).rest;
    assert rest == [rest[0]];
    SpellsAll(ts, Yield(e), rest[0]);
  }

  // The evaluator answers v exactly when the stream is one complete sentence of
  // the grammar whose tree has the value v: every identifier is known, every
  // divisor and every shift amount legal.
  lemma EvaluateIff(ts: seq<Token>, env: seq<Constant>, v: int)
    requires Stream(ts)
    ensures (Evaluate(ts, env).Ok? && Evaluate(ts, env).value == v)
            <==> exists e :: Sentence(e, ts) && Eval(e, env) == Good(v)
  {
    if Evaluate(ts, env).Ok? {
      var e := EvaluateSound(ts, env);
    }
    forall e | Sentence(e, ts) && Eval(e, env) == Good(v)
      ensures Evaluate(ts, env).Ok? && Evaluate(ts, env).value == v
    {
      EvaluateComplete(e, ts, env);
    }
  }

  // No sentence has two meanings, whatever the constants are.
  lemma Unambiguous(a: Expr, b: Expr, ts: seq<Token>, env: seq<Constant>)
    requires Stream(ts) && Sentence(a, ts) && Sentence(b, ts)
    ensures Eval(a, env) == Eval(b, env)
  {
    EvaluateComplete(a, ts, env);
    EvaluateComplete(b, ts, env);
  }
}
