/** The syntactic level of the query grammar: `start : expr`, `expr : '(' func param* ')'`,
    `param : string | number | expr` (lisp.py:5-11, query.py:5-11).

    The parse tree keeps the token text, as the grammar library's tree does; turning literals into
    values is the transformer's job. */
module Parser {
  import opened Results
  import opened Grammar

  /** A parse tree: an `expr` node holding its func name and its params, or a literal leaf. */
  datatype Tree =
    | Call(name: string, params: seq<Tree>)
    | Number(text: string)
    | String(text: string)

  /** Parses one `expr` from the front of `ts`, returning it and the tokens after it. */
  function ParseExpr(ts: seq<Token>): (r: Result<(Tree, seq<Token>), QueryError>)
    ensures r.Ok? ==> |r.value.1| < |ts|
    ensures r.Err? ==> r.error == SyntaxError
    decreases |ts|, 0
  {
    if |ts| < 2 || !ts[0].Open? || !ts[1].Name? then Err(SyntaxError)
    else
      match ParseParams(ts[2..])
      case Err(e) => Err(e)
      case Ok((ps, rest)) =>
        if rest != [] && rest[0].Close? then Ok((Call(ts[1].text, ps), rest[1..]))
        else Err(SyntaxError)
  }

  /** Parses `param*`: literals and nested calls, up to the first token that cannot start one. */
  function ParseParams(ts: seq<Token>): (r: Result<(seq<Tree>, seq<Token>), QueryError>)
    ensures r.Ok? ==> |r.value.1| <= |ts|
    ensures r.Err? ==> r.error == SyntaxError
    decreases |ts|, 1
  {
    if ts == [] then Ok(([], ts))
    else
      match ts[0]
      case Quoted(x) =>
        (match ParseParams(ts[1..])
         case Err(e) => Err(e)
         case Ok((ps, rest)) => Ok(([String(x)] + ps, rest)))
      case Numeral(x) =>
        (match ParseParams(ts[1..])
         case Err(e) => Err(e)
         case Ok((ps, rest)) => Ok(([Number(x)] + ps, rest)))
      case Open =>
        (match ParseExpr(ts)
         case Err(e) => Err(e)
         case Ok((e, rest1)) =>
           match ParseParams(rest1)
           case Err(e) => Err(e)
           case Ok((ps, rest)) => Ok(([e] + ps, rest)))
      case _ => Ok(([], ts))
  }

  /** The whole token stream must be exactly one `expr`: what it accepts is a call whose printing
      is the whole stream, and anything else is a syntax error. */
  function ParseTokens(ts: seq<Token>): (r: Result<Tree, QueryError>)
    ensures r.Ok? ==> r.value.Call? && Tokens(r.value) == ts
    ensures r.Err? ==> r.error == SyntaxError
  {
    match ParseExpr(ts)
    case Err(e) => Err(e)
    case Ok((e, rest)) =>
      if rest == [] then
        ParseExprSound(ts);
        assert Tokens(e) + [] == Tokens(e);
        Ok(e)
      else Err(SyntaxError)
  }

  // ---------------------------------------------------------------------------------------------
  // Printing a tree back to tokens

  function Tokens(e: Tree): seq<Token> {
    match e
    case Call(n, ps) => [Open, Name(n)] + ParamTokens(ps) + [Close]
    case Number(x) => [Numeral(x)]
    case String(x) => [Quoted(x)]
  }

  function ParamTokens(ps: seq<Tree>): seq<Token> {
    if ps == [] then [] else Tokens(ps[0]) + ParamTokens(ps[1..])
  }

  /** A tree whose every token is a word of its lexical class. */
  predicate ValidTree(d: Dialect, e: Tree) {
    match e
    case Call(n, ps) => IsFuncName(d, n) && ValidParams(d, ps)
    case Number(x) => IsNumeral(x)
    case String(x) => IsQuoted(x)
  }

  predicate ValidParams(d: Dialect, ps: seq<Tree>) {
    ps == [] || (ValidTree(d, ps[0]) && ValidParams(d, ps[1..]))
  }

  /** A token that ends a `param*` run. */
  predicate EndsParams(rest: seq<Token>) {
    rest == [] || rest[0].Close? || rest[0].Name?
  }

  /** Printing a call and parsing it back gives the call, whatever follows it. */
  lemma {:induction false} ParseExprPrinted(e: Tree, rest: seq<Token>)
    requires e.Call?
    ensures ParseExpr(Tokens(e) + rest) == Ok((e, rest))
    decreases e, 0
  {
    var ts := Tokens(e) + rest;
    var inner := ParamTokens(e.params);
    assert ts == [Open, Name(e.name)] + (inner + ([Close] + rest));
    assert ts[2..] == inner + ([Close] + rest);
    ParseParamsPrinted(e.params, [Close] + rest);
    assert ([Close] + rest)[1..] == rest;
  }

  /** Printing params and parsing them back gives the params, when the tokens after them end the run. */
  lemma {:induction false} ParseParamsPrinted(ps: seq<Tree>, tail: seq<Token>)
    requires EndsParams(tail)
    ensures ParseParams(ParamTokens(ps) + tail) == Ok((ps, tail))
    decreases ps, 1
  {
    if ps == [] {
      assert ParamTokens(ps) + tail == tail;
      if tail != [] {
        assert tail[0].Close? || tail[0].Name?;
      }
    } else {
      var p := ps[0];
      var after := ParamTokens(ps[1..]) + tail;
      var ts := ParamTokens(ps) + tail;
      assert ts == Tokens(p) + after;
      ParseParamsPrinted(ps[1..], tail);
      assert [p] + ps[1..] == ps;
      match p
      case Call(_, _) =>
        ParseExprPrinted(p, after);
        assert ts[0] == Open;
      case Number(x) =>
        assert ts == [Numeral(x)] + after;
        assert ts[1..] == after;
      case String(x) =>
        assert ts == [Quoted(x)] + after;
        assert ts[1..] == after;
    }
  }

  /** Whatever `ParseExpr` accepts is the printing of the call it returns, followed by the rest. */
  lemma {:induction false} ParseExprSound(ts: seq<Token>)
    requires ParseExpr(ts).Ok?
    ensures ParseExpr(ts).value.0.Call?
    ensures ts == Tokens(ParseExpr(ts).value.0) + ParseExpr(ts).value.1
    decreases |ts|, 0
  {
    var ps := ParseParams(ts[2..]).value.0;
    var rest := ParseParams(ts[2..]).value.1;
    var e := Call(ts[1].text, ps);
    assert ParseExpr(ts) == Ok((e, rest[1..]));
    ParseParamsSound(ts[2..]);
    assert ts[2..] == ParamTokens(ps) + ([Close] + rest[1..]) by {
      assert rest == [Close] + rest[1..];
    }
    assert ts == [Open, Name(ts[1].text)] + ts[2..] by {
      assert ts == ts[..2] + ts[2..];
      assert ts[..2] == [Open, Name(ts[1].text)];
    }
    assert Tokens(e) + rest[1..] == [Open, Name(ts[1].text)] + (ParamTokens(ps) + ([Close] + rest[1..]));
  }

  /** Whatever `ParseParams` accepts is the printing of the params it returns, and it stops at a
      token that ends the run. */
  lemma {:induction false} ParseParamsSound(ts: seq<Token>)
    requires ParseParams(ts).Ok?
    ensures ts == ParamTokens(ParseParams(ts).value.0) + ParseParams(ts).value.1
    ensures EndsParams(ParseParams(ts).value.1)
    decreases |ts|, 1
  {
    if ts != [] {
      match ts[0]
      case Quoted(x) =>
        ParseParamsSound(ts[1..]);
        var (ps, rest) := ParseParams(ts[1..]).value;
        assert ParseParams(ts).value == ([String(x)] + ps, rest);
        LiteralParamSound(ts, String(x), ps, rest);
      case Numeral(x) =>
        ParseParamsSound(ts[1..]);
        var (ps, rest) := ParseParams(ts[1..]).value;
        assert ParseParams(ts).value == ([Number(x)] + ps, rest);
        LiteralParamSound(ts, Number(x), ps, rest);
      case Open =>
        ParseExprSound(ts);
        var e := ParseExpr(ts).value.0;
        var rest1 := ParseExpr(ts).value.1;
        ParseParamsSound(rest1);
        var ps := ParseParams(rest1).value.0;
        assert ParseParams(ts).value == ([e] + ps, ParseParams(rest1).value.1);
        ParamTokensCons(e, ps);
      case _ =>
        assert ParamTokens([]) + ts == ts;
    }
  }

  /** A literal param in front of params the parser accepted and printed back. */
  lemma LiteralParamSound(ts: seq<Token>, p: Tree, ps: seq<Tree>, rest: seq<Token>)
    requires ts != [] && Tokens(p) == [ts[0]]
    requires ts[1..] == ParamTokens(ps) + rest
    ensures ts == ParamTokens([p] + ps) + rest
  {
    ParamTokensCons(p, ps);
    assert ts == [ts[0]] + ts[1..];
  }

  lemma ParamTokensCons(p: Tree, ps: seq<Tree>)
    ensures ParamTokens([p] + ps) == Tokens(p) + ParamTokens(ps)
  {
    assert ([p] + ps)[1..] == ps;
  }

  /** The parser accepts a token stream exactly when it is the printing of some call, and then
      returns that call: parsing and printing are inverse. */
  lemma ParseTokensExactly(ts: seq<Token>, e: Tree)
    ensures ParseTokens(ts) == Ok(e) <==> e.Call? && ts == Tokens(e)
  {
    if ParseTokens(ts) == Ok(e) {
      ParseExprSound(ts);
      assert ts == Tokens(e) + [];
    }
    if e.Call? && ts == Tokens(e) {
      ParseExprPrinted(e, []);
      assert Tokens(e) + [] == Tokens(e);
    }
  }

  /** Every valid tree prints to valid tokens, so its printing is something the lexer can produce. */
  lemma {:induction false} ValidTreeTokens(d: Dialect, e: Tree)
    requires ValidTree(d, e)
    ensures forall i :: 0 <= i < |Tokens(e)| ==> ValidToken(d, Tokens(e)[i])
    decreases e, 0
  {
    match e
    case Call(n, ps) =>
      ValidParamsTokens(d, ps);
      var ts := Tokens(e);
      forall i | 0 <= i < |ts|
        ensures ValidToken(d, ts[i])
      {
        if 2 <= i < |ts| - 1 {
          assert ts[i] == ParamTokens(ps)[i - 2];
        }
      }
    case Number(_) =>
    case String(_) =>
  }

  lemma {:induction false} ValidParamsTokens(d: Dialect, ps: seq<Tree>)
    requires ValidParams(d, ps)
    ensures forall i :: 0 <= i < |ParamTokens(ps)| ==> ValidToken(d, ParamTokens(ps)[i])
    decreases ps, 1
  {
    if ps != [] {
      ValidTreeTokens(d, ps[0]);
      ValidParamsTokens(d, ps[1..]);
      var a := Tokens(ps[0]);
      var b := ParamTokens(ps[1..]);
      forall i | 0 <= i < |a + b|
        ensures ValidToken(d, (a + b)[i])
      {
        if i >= |a| {
          assert (a + b)[i] == b[i - |a|];
        }
      }
    }
  }

  /** An empty call `()` has no func and is rejected. */
  lemma EmptyCallRejected(rest: seq<Token>)
    ensures ParseExpr([Open, Close] + rest) == Err(SyntaxError)
  {
  }

  /** A func name cannot be a param: a name after the head of a call ends the params before the
      closing parenthesis, so `(- -5)` and `(f g)` are syntax errors. */
  lemma NameParamRejected(n: string, m: string, rest: seq<Token>)
    ensures ParseExpr([Open, Name(n), Name(m)] + rest) == Err(SyntaxError)
  {
    var ts := [Open, Name(n), Name(m)] + rest;
    assert ts[2..] == [Name(m)] + rest;
    assert ParseParams(ts[2..]) == Ok(([], ts[2..]));
  }
}
